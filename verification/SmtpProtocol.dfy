/**
 The SMTP session as a function of its commands, and what a transcript of commands and replies says
 about the message that is handed to the store.
 */
module SmtpProtocol {
  import opened Options
  import opened SmtpFraming

  datatype State = CONNECTED | HELO_EHLO | AUTH | MAIL_FROM | RCPT_TO

  datatype Config = Config(tlsRequired: bool, startTlsRequired: bool, maxSize: nat)

  datatype Login = Right | Wrong | Failing

  /** What the handshake, the credential check and the store answer to one command. */
  datatype Env = Env(tlsOk: bool, tlsInput: Stream, login: Login, storeOk: bool)

  /** `input` is what the client will send from now on. */
  datatype Session = Session(state: State, authed: bool, tls: bool, mailFrom: string, rcpts: seq<string>,
                             open: bool, input: Stream)

  datatype Message = Message(from: string, recipients: seq<string>, rawData: string, mailboxUser: string)

  datatype Verb = HELO | EHLO | STARTTLS | AUTHENTICATE | MAIL | RCPT | DATA | QUIT | RSET | NOOP | OTHER

  /** One command with its reply codes and the message it handed to the store. */
  datatype Entry = Entry(verb: Verb, args: string, replies: seq<nat>, handed: Option<Message>)

  // ------------------------------------------------------------------ reading a command line

  predicate Space(c: char) {
    c == ' ' || 9 as char <= c <= 13 as char
  }

  function SkipSpaces(s: string): string {
    if s != "" && Space(s[0]) then SkipSpaces(s[1..]) else s
  }

  function WordLength(s: string): (n: nat)
    ensures n <= |s|
  {
    if s == "" || Space(s[0]) then 0 else 1 + WordLength(s[1..])
  }

  /** The first word, and what follows it without one leading space. */
  function SplitCommand(line: string): (string, string) {
    var s := SkipSpaces(line);
    var n := WordLength(s);
    var args := s[n..];
    (s[..n], if args != "" && args[0] == ' ' then args[1..] else args)
  }

  function Upper(s: string): string {
    if s == "" then ""
    else [if 'a' <= s[0] <= 'z' then ('A' as int + (s[0] as int - 'a' as int)) as char else s[0]] + Upper(s[1..])
  }

  function VerbOf(word: string): Verb {
    var u := Upper(word);
    if u == "EHLO" then EHLO
    else if u == "HELO" then HELO
    else if u == "STARTTLS" then STARTTLS
    else if u == "AUTH" then AUTHENTICATE
    else if u == "MAIL" then MAIL
    else if u == "RCPT" then RCPT
    else if u == "DATA" then DATA
    else if u == "QUIT" then QUIT
    else if u == "RSET" then RSET
    else if u == "NOOP" then NOOP
    else OTHER
  }

  // ------------------------------------------------------------------ the handlers

  datatype Outcome = Outcome(s: Session, replies: seq<nat>, handed: Option<Message>)

  function Says(s: Session, code: nat): Outcome {
    Outcome(s, [code], None)
  }

  function AfterStarttls(s: Session, env: Env): Outcome {
    if s.tls then Says(s, 454)
    else if !env.tlsOk then Outcome(s.(open := false), [220, 454], None)
    else Outcome(s.(tls := true, authed := false, mailFrom := "", rcpts := [], input := env.tlsInput), [220], None)
  }

  function AfterAuth(s: Session, env: Env): Outcome {
    if s.authed then Says(s, 503)
    else
      match env.login
      case Right => Says(s.(authed := true), 235)
      case Wrong => Says(s, 535)
      case Failing => Says(s, 451)
  }

  /** handleData: the reply is 250 only when the store took the message. */
  function AfterData(cfg: Config, s: Session, env: Env): Outcome {
    if s.rcpts == [] then Says(s, 503)
    else
      var r := Collect(s.input, "", 0, cfg.maxSize);
      match r
      case TooBig(rest) => Outcome(s.(input := rest), [354, 552], None)
      case TooComplex(rest) => Outcome(s.(input := rest), [354, 451], None)
      case Text(body, rest, tooLong) =>
        Outcome(s.(input := rest), (if tooLong then [354, 500] else [354]) + [if env.storeOk then 250 else 451],
                Some(Message(s.mailFrom, s.rcpts, body, s.rcpts[0])))
  }

  /** handleCommand. EHLO answers with capability lines, which carry no reply code here. */
  function AfterCommand(cfg: Config, s: Session, verb: Verb, args: string, env: Env): Outcome {
    match verb
    case EHLO => Outcome(s.(state := HELO_EHLO), [], None)
    case HELO => Says(s.(state := HELO_EHLO), 250)
    case STARTTLS =>
      if s.state.CONNECTED? then Says(s, 503) else AfterStarttls(s, env)
    case AUTHENTICATE =>
      if s.state.CONNECTED? then Says(s, 503)
      else if cfg.startTlsRequired && !s.tls then Says(s, 530)
      else
        var o := AfterAuth(s, env);
        if o.s.authed then o.(s := o.s.(state := AUTH)) else o
    case MAIL =>
      if s.state.CONNECTED? then Says(s, 503)
      else if cfg.tlsRequired && !s.tls then Says(s, 530)
      else if !s.authed then Says(s, 530)
      else Says(s.(mailFrom := args, rcpts := [], state := MAIL_FROM), 250)
    case RCPT =>
      if !s.state.MAIL_FROM? && !s.state.RCPT_TO? then Says(s, 503)
      else if cfg.tlsRequired && !s.tls then Says(s, 530)
      else Says(s.(rcpts := s.rcpts + [args], state := RCPT_TO), 250)
    case DATA =>
      if !s.state.RCPT_TO? then Says(s, 503)
      else if cfg.tlsRequired && !s.tls then Says(s, 530)
      else
        var o := AfterData(cfg, s, env);
        o.(s := o.s.(state := MAIL_FROM, mailFrom := "", rcpts := []))
    case QUIT => Says(s.(open := false), 221)
    case RSET => Says(s.(authed := false, mailFrom := "", rcpts := [], state := HELO_EHLO), 250)
    case NOOP => Says(s, 250)
    case OTHER => Says(s, 502)
  }

  function After(cfg: Config, s: Session, line: string, env: Env): Outcome {
    var (word, args) := SplitCommand(line);
    AfterCommand(cfg, s, VerbOf(word), args, env)
  }

  function EntryOf(cfg: Config, s: Session, line: string, env: Env): Entry {
    var (word, args) := SplitCommand(line);
    var o := AfterCommand(cfg, s, VerbOf(word), args, env);
    Entry(VerbOf(word), args, o.replies, o.handed)
  }

  // ------------------------------------------------------------------ what a transcript says

  predicate MailAccepted(e: Entry) { e.verb.MAIL? && e.replies == [250] }

  predicate RcptAccepted(e: Entry) { e.verb.RCPT? && e.replies == [250] }

  predicate AuthSucceeded(e: Entry) { e.verb.AUTHENTICATE? && e.replies == [235] }

  predicate StarttlsSucceeded(e: Entry) { e.verb.STARTTLS? && e.replies == [220] }

  predicate DataStarted(e: Entry) { e.verb.DATA? && e.replies != [] && e.replies[0] == 354 }

  predicate Discards(e: Entry) { DataStarted(e) || StarttlsSucceeded(e) || e.verb.RSET? }

  /** The longest end of the transcript in which no message was begun, finished or discarded. */
  function Recent(t: seq<Entry>): seq<Entry> {
    if t == [] then []
    else
      var e := t[|t| - 1];
      if MailAccepted(e) || Discards(e) then [] else Recent(t[..|t| - 1]) + [e]
  }

  function RcptArgs(t: seq<Entry>): seq<string> {
    if t == [] then []
    else RcptArgs(t[..|t| - 1]) + (if RcptAccepted(t[|t| - 1]) then [t[|t| - 1].args] else [])
  }

  /** The argument of the last accepted MAIL unless its message was finished or discarded since. */
  function Sender(t: seq<Entry>): string {
    if t == [] then ""
    else
      var e := t[|t| - 1];
      if MailAccepted(e) then e.args else if Discards(e) then "" else Sender(t[..|t| - 1])
  }

  /** Whether the client is logged in, counted from the last login, RSET or STARTTLS. */
  predicate LoggedIn(t: seq<Entry>) {
    t != [] &&
    var e := t[|t| - 1];
    AuthSucceeded(e) || (!e.verb.RSET? && !StarttlsSucceeded(e) && LoggedIn(t[..|t| - 1]))
  }

  /** Whether TLS came up after the last accepted MAIL. */
  predicate TlsSinceMail(t: seq<Entry>) {
    t != [] &&
    var e := t[|t| - 1];
    StarttlsSucceeded(e) || (!MailAccepted(e) && TlsSinceMail(t[..|t| - 1]))
  }

  predicate EverLoggedIn(t: seq<Entry>) {
    exists i :: 0 <= i < |t| && AuthSucceeded(t[i])
  }

  // ------------------------------------------------------------------ sessions and transcripts agree

  /** All that a transcript tells about the message under way. */
  datatype Reading = Reading(recipients: seq<string>, sender: string, loggedIn: bool, tlsSinceMail: bool, everLoggedIn: bool)

  ghost function ReadingOf(t: seq<Entry>): Reading {
    Reading(RcptArgs(Recent(t)), Sender(t), LoggedIn(t), TlsSinceMail(t), EverLoggedIn(t))
  }

  ghost predicate Matches(s: Session, r: Reading) {
    && s.rcpts == r.recipients
    && s.mailFrom == r.sender
    && s.authed == r.loggedIn
    && (s.state.MAIL_FROM? || s.state.RCPT_TO? ==> r.everLoggedIn && (s.authed <==> !r.tlsSinceMail))
    && (s.authed ==> r.everLoggedIn)
    && (s.state.RCPT_TO? && s.rcpts == [] ==> s.mailFrom == "")
  }

  ghost predicate Agrees(s: Session, t: seq<Entry>) {
    Matches(s, ReadingOf(t))
  }

  ghost function ReadOn(r: Reading, e: Entry): Reading {
    Reading(
      if MailAccepted(e) || Discards(e) then [] else r.recipients + (if RcptAccepted(e) then [e.args] else []),
      if MailAccepted(e) then e.args else if Discards(e) then "" else r.sender,
      AuthSucceeded(e) || (!e.verb.RSET? && !StarttlsSucceeded(e) && r.loggedIn),
      StarttlsSucceeded(e) || (!MailAccepted(e) && r.tlsSinceMail),
      r.everLoggedIn || AuthSucceeded(e))
  }

  lemma ReadingGrows(t: seq<Entry>, e: Entry)
    ensures ReadingOf(t + [e]) == ReadOn(ReadingOf(t), e)
  {
    var u := t + [e];
    assert u[..|u| - 1] == t && u[|u| - 1] == e;
    var r := Recent(t) + [e];
    assert r[..|r| - 1] == Recent(t);
    if EverLoggedIn(t) {
      var i :| 0 <= i < |t| && AuthSucceeded(t[i]);
      assert AuthSucceeded(u[i]);
    }
    if AuthSucceeded(e) { assert AuthSucceeded(u[|t|]); }
  }

  lemma VerbKeepsAgreement(cfg: Config, s: Session, r: Reading, verb: Verb, args: string, env: Env)
    requires Matches(s, r)
    ensures var o := AfterCommand(cfg, s, verb, args, env);
            Matches(o.s, ReadOn(r, Entry(verb, args, o.replies, o.handed)))
  {
    assert r.recipients + [] == r.recipients;
  }

  lemma CommandKeepsAgreement(cfg: Config, s: Session, t: seq<Entry>, verb: Verb, args: string, env: Env)
    requires Agrees(s, t)
    ensures var o := AfterCommand(cfg, s, verb, args, env);
            Agrees(o.s, t + [Entry(verb, args, o.replies, o.handed)])
  {
    VerbKeepsAgreement(cfg, s, ReadingOf(t), verb, args, env);
    var o := AfterCommand(cfg, s, verb, args, env);
    ReadingGrows(t, Entry(verb, args, o.replies, o.handed));
  }

  lemma VerbConsumes(cfg: Config, s: Session, verb: Verb, args: string, env: Env)
    ensures var s' := AfterCommand(cfg, s, verb, args, env).s;
            (s.tls ==> s'.tls) && (s.tls == s'.tls ==> |s'.input| <= |s.input|)
  {
  }

  /** A command gives no bytes back, except that TLS starts a new stream, once. */
  lemma CommandConsumes(cfg: Config, s: Session, line: string, env: Env)
    ensures var s' := After(cfg, s, line, env).s;
            (s.tls ==> s'.tls) && (s.tls == s'.tls ==> |s'.input| <= |s.input|)
  {
    var (word, args) := SplitCommand(line);
    VerbConsumes(cfg, s, VerbOf(word), args, env);
  }

  datatype Command = Command(line: string, env: Env)

  /** The transcript of a session that is given these commands, until it closes. */
  function Transcript(cfg: Config, s: Session, commands: seq<Command>): (Session, seq<Entry>) {
    if commands == [] then (s, [])
    else
      var (before, t) := Transcript(cfg, s, commands[..|commands| - 1]);
      var c := commands[|commands| - 1];
      if !before.open then (before, t)
      else (After(cfg, before, c.line, c.env).s, t + [EntryOf(cfg, before, c.line, c.env)])
  }

  predicate Fresh(s: Session) {
    s.state.CONNECTED? && !s.authed && s.mailFrom == "" && s.rcpts == [] && s.open
  }

  lemma {:induction false} SessionAgrees(cfg: Config, s: Session, commands: seq<Command>)
    requires Fresh(s)
    ensures var (s', t) := Transcript(cfg, s, commands); Agrees(s', t)
  {
    if commands != [] {
      SessionAgrees(cfg, s, commands[..|commands| - 1]);
      var (before, t) := Transcript(cfg, s, commands[..|commands| - 1]);
      var c := commands[|commands| - 1];
      var (word, args) := SplitCommand(c.line);
      CommandKeepsAgreement(cfg, before, t, VerbOf(word), args, c.env);
    }
  }

  /** What is handed over at entry `e` fits the transcript `t` before it. */
  ghost predicate Fits(t: seq<Entry>, e: Entry) {
    e.handed.Some? ==>
      var m := e.handed.value;
      && DataStarted(e)
      && m.recipients == RcptArgs(Recent(t)) && m.recipients != [] && m.mailboxUser == m.recipients[0]
      && m.from == Sender(t)
      && EverLoggedIn(t)
      && (LoggedIn(t) <==> !TlsSinceMail(t))
  }

  lemma HandedFits(cfg: Config, s: Session, t: seq<Entry>, line: string, env: Env)
    requires Agrees(s, t)
    ensures Fits(t, EntryOf(cfg, s, line, env))
  {
  }

  /**
   In every session, whatever commands come in whatever order, each message handed to the store has
   as recipients exactly the accepted RCPT arguments since the last accepted MAIL, finished DATA,
   STARTTLS or RSET, in order and at least one; its sender is that MAIL's argument, or empty if one
   of the others came after it; the client had logged in earlier, and it still is logged in exactly
   if TLS did not come up after that MAIL.
   */
  lemma {:induction false} EveryMessageFits(cfg: Config, s: Session, commands: seq<Command>, n: nat)
    requires Fresh(s) && n < |Transcript(cfg, s, commands).1|
    ensures var t := Transcript(cfg, s, commands).1; Fits(t[..n], t[n])
  {
    if commands != [] {
      var shorter := commands[..|commands| - 1];
      var (before, t) := Transcript(cfg, s, shorter);
      var c := commands[|commands| - 1];
      var all := Transcript(cfg, s, commands).1;
      if n < |t| {
        EveryMessageFits(cfg, s, shorter, n);
        assert all[..n] == t[..n] && all[n] == t[n];
      } else {
        SessionAgrees(cfg, s, shorter);
        HandedFits(cfg, before, t, c.line, c.env);
        assert all[..n] == t;
      }
    }
  }

  /** Positions instead of suffixes: nothing between the last boundary and the end begins or discards a message. */
  lemma {:induction false} RecentIsLongest(t: seq<Entry>)
    ensures var k := |t| - |Recent(t)|;
            && 0 <= k && Recent(t) == t[k..]
            && (forall i :: k <= i < |t| ==> !MailAccepted(t[i]) && !Discards(t[i]))
            && (k > 0 ==> MailAccepted(t[k - 1]) || Discards(t[k - 1]))
  {
    hide MailAccepted, Discards;
    if t != [] && !MailAccepted(t[|t| - 1]) && !Discards(t[|t| - 1]) {
      var u := t[..|t| - 1];
      RecentIsLongest(u);
      var k := |u| - |Recent(u)|;
      assert t[k..] == u[k..] + [t[|t| - 1]];
      forall i | k <= i < |t| ensures !MailAccepted(t[i]) && !Discards(t[i]) {
        if i < |u| { assert t[i] == u[i]; }
      }
    }
  }

  lemma {:induction false} PlainWord(w: string)
    requires forall c :: c in w ==> 'A' <= c <= 'Z'
    ensures SkipSpaces(w) == w && WordLength(w) == |w| && Upper(w) == w
  {
    if w != "" {
      assert w[0] in w && forall c :: c in w[1..] ==> c in w;
      PlainWord(w[1..]);
      assert [w[0]] + w[1..] == w;
    }
  }

  lemma PlainCommand(w: string)
    requires forall c :: c in w ==> 'A' <= c <= 'Z'
    ensures SplitCommand(w) == (w, "")
    ensures w == "HELO" ==> VerbOf(w) == HELO
    ensures w == "AUTH" ==> VerbOf(w) == AUTHENTICATE
    ensures w == "MAIL" ==> VerbOf(w) == MAIL
    ensures w == "STARTTLS" ==> VerbOf(w) == STARTTLS
    ensures w == "RCPT" ==> VerbOf(w) == RCPT
    ensures w == "DATA" ==> VerbOf(w) == DATA
  {
    PlainWord(w);
    assert w[|w|..] == "" && w[..|w|] == w;
  }

  /** One more command word without arguments. */
  lemma Plays(cfg: Config, s: Session, cs: seq<Command>, b: Session, w: string, verb: Verb, env: Env)
    returns (cs': seq<Command>)
    requires (forall c :: c in w ==> 'A' <= c <= 'Z') && VerbOf(w) == verb
    requires Transcript(cfg, s, cs).0 == b && b.open
    ensures Transcript(cfg, s, cs').0 == AfterCommand(cfg, b, verb, "", env).s
  {
    PlainCommand(w);
    cs' := cs + [Command(w, env)];
    assert cs'[..|cs'| - 1] == cs;
  }

  /**
   Being logged in when the message is handed over is not implied: with TLS started between MAIL and
   RCPT the login is dropped but the place in the dialogue is kept.
   */
  lemma HandedOverAfterTls(s: Session)
    requires Fresh(s) && !s.tls
    ensures exists cfg, cs: seq<Command>, c: Command ::
              && Transcript(cfg, s, cs).0.open
              && EntryOf(cfg, Transcript(cfg, s, cs).0, c.line, c.env).handed.Some?
              && !LoggedIn(Transcript(cfg, s, cs).1)
  {
    hide Transcript, SplitCommand, VerbOf;
    var cfg := Config(false, false, 1000);
    var env := Env(true, [], Right, true);
    var cs := BeyondTls(cfg, s, env);
    var b := Transcript(cfg, s, cs).0;
    SessionAgrees(cfg, s, cs);
    PlainCommand("DATA");
    assert AfterData(cfg, b, env).handed.Some?;
    assert EntryOf(cfg, b, Command("DATA", env).line, Command("DATA", env).env).handed.Some?;
  }

  lemma MailBegun(cfg: Config, s: Session, env: Env) returns (cs: seq<Command>)
    requires Fresh(s) && !s.tls && cfg == Config(false, false, 1000) && env == Env(true, [], Right, true)
    ensures Transcript(cfg, s, cs).0 == s.(state := MAIL_FROM, authed := true)
  {
    hide SplitCommand, VerbOf;
    PlainCommand("HELO");
    cs := Plays(cfg, s, [], s, "HELO", HELO, env);
    cs := LoggedInFrom(cfg, s, cs, env);
    PlainCommand("MAIL");
    cs := Plays(cfg, s, cs, s.(state := AUTH, authed := true), "MAIL", MAIL, env);
  }

  lemma LoggedInFrom(cfg: Config, s: Session, cs: seq<Command>, env: Env) returns (cs': seq<Command>)
    requires Fresh(s) && !s.tls && cfg == Config(false, false, 1000) && env == Env(true, [], Right, true)
    requires Transcript(cfg, s, cs).0 == s.(state := HELO_EHLO)
    ensures Transcript(cfg, s, cs').0 == s.(state := AUTH, authed := true)
  {
    hide Transcript, SplitCommand, VerbOf;
    PlainCommand("AUTH");
    cs' := Plays(cfg, s, cs, s.(state := HELO_EHLO), "AUTH", AUTHENTICATE, env);
  }

  /** HELO, AUTH, MAIL, STARTTLS, RCPT: a recipient is in place and nobody is logged in. */
  lemma BeyondTls(cfg: Config, s: Session, env: Env) returns (cs: seq<Command>)
    requires Fresh(s) && !s.tls && cfg == Config(false, false, 1000) && env == Env(true, [], Right, true)
    ensures Transcript(cfg, s, cs).0 == Session(RCPT_TO, false, true, "", [""], true, [])
  {
    hide Transcript, SplitCommand, VerbOf;
    cs := MailBegun(cfg, s, env);
    PlainCommand("STARTTLS");
    cs := Plays(cfg, s, cs, s.(state := MAIL_FROM, authed := true), "STARTTLS", STARTTLS, env);
    PlainCommand("RCPT");
    cs := Plays(cfg, s, cs, s.(state := MAIL_FROM, tls := true, input := []), "RCPT", RCPT, env);
  }
}
