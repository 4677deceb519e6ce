/**
 What the server answers, told from the transcript alone: which replies a command gets after the commands and
 replies before it, what the last reply of DATA says about the store, and which message DATA hands over.
 */
module SmtpAnswers {
  import opened Options
  import opened SmtpFraming
  import opened SmtpProtocol
  import opened Strings

  // ------------------------------------------------------------------ names of commands

  /** The word of a verb in section 4.1.1 of RFC 5321, RFC 3207 and RFC 4954. */
  function NameOf(v: Verb): string
    requires !v.OTHER?
  {
    match v
    case HELO => "HELO"
    case EHLO => "EHLO"
    case STARTTLS => "STARTTLS"
    case AUTHENTICATE => "AUTH"
    case MAIL => "MAIL"
    case RCPT => "RCPT"
    case DATA => "DATA"
    case QUIT => "QUIT"
    case RSET => "RSET"
    case NOOP => "NOOP"
  }

  lemma {:induction false} UpperIs(word: string, name: string)
    requires forall c :: c in name ==> 'A' <= c <= 'Z'
    ensures Upper(word) == name <==> SameName(word, name)
  {
    if word != "" && name != "" {
      assert name[0] in name && forall c :: c in name[1..] ==> c in name;
      UpperIs(word[1..], name[1..]);
      assert name == [name[0]] + name[1..] && word == [word[0]] + word[1..];
      assert Upper(word)[0] == name[0] <==> SameLetter(word[0], name[0]);
      assert Upper(word)[1..] == Upper(word[1..]);
    }
  }

  /** A word is a command exactly by its letters, in any case; every other word is no command. */
  lemma VerbByName(word: string, v: Verb)
    requires !v.OTHER?
    ensures VerbOf(word) == v <==> SameName(word, NameOf(v))
  {
    hide Upper, SameName;
    UpperIs(word, NameOf(v));
  }

  lemma {:induction false} WordEnds(word: string, more: string)
    requires forall c :: c in word ==> !Space(c)
    ensures WordLength(word + " " + more) == |word|
  {
    if word == "" {
      assert (word + " " + more)[0] == ' ';
    } else {
      assert word[0] in word && forall c :: c in word[1..] ==> c in word;
      assert (word + " " + more)[1..] == word[1..] + " " + more && (word + " " + more)[0] == word[0];
      WordEnds(word[1..], more);
    }
  }

  /** A line is cut at the first space: the word in front, and everything behind that space. */
  lemma LineCut(word: string, more: string)
    requires word != "" && forall c :: c in word ==> !Space(c)
    ensures SplitCommand(word + " " + more) == (word, more)
  {
    var line := word + " " + more;
    assert line[0] == word[0] && word[0] in word;
    WordEnds(word, more);
    assert line[|word|..] == " " + more && line[..|word|] == word;
  }

  // ------------------------------------------------------------------ reading a transcript

  /** HELO, EHLO or RSET was given. */
  predicate Greeted(t: seq<Entry>) {
    exists i :: 0 <= i < |t| && (t[i].verb.HELO? || t[i].verb.EHLO? || t[i].verb.RSET?)
  }

  /** The session runs over TLS: it began so, or a STARTTLS succeeded. */
  predicate Secured(tls: bool, t: seq<Entry>) {
    tls || exists i :: 0 <= i < |t| && StarttlsSucceeded(t[i])
  }

  /** How far the present mail has got: no MAIL, MAIL but no RCPT, RCPT. */
  datatype Place = Outside | Begun | Named

  function PlaceOf(t: seq<Entry>): Place {
    if t == [] then Outside
    else
      var e, before := t[|t| - 1], PlaceOf(t[..|t| - 1]);
      match e.verb
      case HELO => Outside
      case EHLO => Outside
      case RSET => Outside
      case AUTHENTICATE => if e.replies == [235] || e.replies == [503] then Outside else before
      case MAIL => if e.replies == [250] then Begun else before
      case RCPT => if e.replies == [250] then Named else before
      case DATA => if before.Named? && e.replies != [530] then Begun else before
      case _ => before
  }

  function Recipients(t: seq<Entry>): seq<string> { RcptArgs(Recent(t)) }

  /** Whether the reply that DATA ends with tells what the store did. */
  predicate DataAnswer(e: Entry, storeOk: bool) {
    match e.handed
    case Some(_) =>
      && |e.replies| >= 2 && e.replies[0] == 354
      && e.replies[|e.replies| - 1] == (if storeOk then 250 else 451)
      && (forall i :: 0 <= i < |e.replies| - 1 ==> e.replies[i] == 354 || e.replies[i] == 500)
    case None => e.replies == [354, 552] || e.replies == [354, 451]
  }

  /** The replies to a command after the transcript `t`, in a session that began over TLS or not. */
  ghost predicate Answered(cfg: Config, tls: bool, t: seq<Entry>, e: Entry, env: Env) {
    && (!e.verb.DATA? ==> e.handed.None?)
    && match e.verb
       case HELO => e.replies == [250]
       case EHLO => e.replies == []
       case NOOP => e.replies == [250]
       case RSET => e.replies == [250]
       case QUIT => e.replies == [221]
       case OTHER => e.replies == [502]
       case STARTTLS =>
         e.replies == if !Greeted(t) then [503] else if Secured(tls, t) then [454] else if env.tlsOk then [220] else [220, 454]
       case AUTHENTICATE =>
         e.replies == if !Greeted(t) then [503]
                      else if cfg.startTlsRequired && !Secured(tls, t) then [530]
                      else if LoggedIn(t) then [503]
                      else if env.login.Right? then [235] else if env.login.Wrong? then [535] else [451]
       case MAIL =>
         e.replies == if !Greeted(t) then [503]
                      else if cfg.tlsRequired && !Secured(tls, t) then [530]
                      else if !LoggedIn(t) then [530] else [250]
       case RCPT =>
         e.replies == if PlaceOf(t).Outside? then [503] else if cfg.tlsRequired && !Secured(tls, t) then [530] else [250]
       case DATA =>
         if !PlaceOf(t).Named? then e.replies == [503] && e.handed.None?
         else if cfg.tlsRequired && !Secured(tls, t) then e.replies == [530] && e.handed.None?
         else if Recipients(t) == [] then e.replies == [503] && e.handed.None?
         else DataAnswer(e, env.storeOk)
  }

  // ------------------------------------------------------------------ sessions answer so

  /** The session's own state says what the transcript says. */
  ghost predicate Follows(s: Session, tls: bool, t: seq<Entry>) {
    && Agrees(s, t)
    && (s.state.CONNECTED? <==> !Greeted(t))
    && (s.tls <==> Secured(tls, t))
    && (s.state.MAIL_FROM? <==> PlaceOf(t).Begun?)
    && (s.state.RCPT_TO? <==> PlaceOf(t).Named?)
  }

  lemma GreetedGrows(t: seq<Entry>, e: Entry)
    ensures Greeted(t + [e]) <==> Greeted(t) || e.verb.HELO? || e.verb.EHLO? || e.verb.RSET?
  {
    var u := t + [e];
    assert u[|t|] == e && forall i :: 0 <= i < |t| ==> u[i] == t[i];
  }

  lemma SecuredGrows(tls: bool, t: seq<Entry>, e: Entry)
    ensures Secured(tls, t + [e]) <==> Secured(tls, t) || StarttlsSucceeded(e)
  {
    var u := t + [e];
    assert u[|t|] == e && forall i :: 0 <= i < |t| ==> u[i] == t[i];
  }

  lemma PlaceGrows(t: seq<Entry>, e: Entry)
    ensures PlaceOf(t + [e]) == (match e.verb
                                 case HELO => Outside
                                 case EHLO => Outside
                                 case RSET => Outside
                                 case AUTHENTICATE => if e.replies == [235] || e.replies == [503] then Outside else PlaceOf(t)
                                 case MAIL => if e.replies == [250] then Begun else PlaceOf(t)
                                 case RCPT => if e.replies == [250] then Named else PlaceOf(t)
                                 case DATA => if PlaceOf(t).Named? && e.replies != [530] then Begun else PlaceOf(t)
                                 case _ => PlaceOf(t))
  {
    assert (t + [e])[..|t|] == t;
  }

  lemma EveryAnswer(cfg: Config, s: Session, tls: bool, t: seq<Entry>, verb: Verb, args: string, env: Env)
    requires Follows(s, tls, t)
    ensures var o := AfterCommand(cfg, s, verb, args, env); Answered(cfg, tls, t, Entry(verb, args, o.replies, o.handed), env)
  {
    hide Greeted, Secured, PlaceOf, LoggedIn, RcptArgs, Recent, Collect, Sender, TlsSinceMail, EverLoggedIn;
  }

  lemma CommandKeepsFollowing(cfg: Config, s: Session, tls: bool, t: seq<Entry>, verb: Verb, args: string, env: Env)
    requires Follows(s, tls, t)
    ensures var o := AfterCommand(cfg, s, verb, args, env); Follows(o.s, tls, t + [Entry(verb, args, o.replies, o.handed)])
  {
    hide Greeted, Secured, PlaceOf, LoggedIn, RcptArgs, Recent, Collect, Sender, TlsSinceMail, EverLoggedIn;
    var o := AfterCommand(cfg, s, verb, args, env);
    var e := Entry(verb, args, o.replies, o.handed);
    CommandKeepsAgreement(cfg, s, t, verb, args, env);
    GreetedGrows(t, e);
    SecuredGrows(tls, t, e);
    PlaceGrows(t, e);
  }

  lemma {:induction false} SessionFollows(cfg: Config, s: Session, commands: seq<Command>)
    requires Fresh(s)
    ensures var (s', t) := Transcript(cfg, s, commands); Follows(s', s.tls, t)
  {
    if commands != [] {
      SessionFollows(cfg, s, commands[..|commands| - 1]);
      var (before, t) := Transcript(cfg, s, commands[..|commands| - 1]);
      var c := commands[|commands| - 1];
      var (word, args) := SplitCommand(c.line);
      CommandKeepsFollowing(cfg, before, s.tls, t, VerbOf(word), args, c.env);
    }
  }

  /** Every command up to the one that closes the session has its entry, and entry `n` belongs to command `n`. */
  lemma {:induction false} EntryOfCommand(cfg: Config, s: Session, commands: seq<Command>, n: nat)
    requires n < |Transcript(cfg, s, commands).1|
    ensures n < |commands| && |Transcript(cfg, s, commands).1| <= |commands|
    ensures var (before, t) := Transcript(cfg, s, commands[..n]);
            && before.open && t == Transcript(cfg, s, commands).1[..n]
            && Transcript(cfg, s, commands).1[n] == EntryOf(cfg, before, commands[n].line, commands[n].env)
  {
    hide After, EntryOf;
    var shorter := commands[..|commands| - 1];
    var t := Transcript(cfg, s, shorter).1;
    TranscriptLength(cfg, s, shorter);
    TranscriptLength(cfg, s, commands);
    if n < |t| {
      EntryOfCommand(cfg, s, shorter, n);
      assert shorter[..n] == commands[..n];
      assert Transcript(cfg, s, commands).1[..n] == t[..n];
    } else {
      assert commands[..n] == shorter;
      assert Transcript(cfg, s, commands).1[..n] == t;
    }
  }

  lemma {:induction false} TranscriptLength(cfg: Config, s: Session, commands: seq<Command>)
    ensures var (s', t) := Transcript(cfg, s, commands); |t| <= |commands| && (s'.open ==> |t| == |commands|)
  {
    if commands != [] {
      TranscriptLength(cfg, s, commands[..|commands| - 1]);
    }
  }

  /**
   In every session every command gets the answer that the transcript before it, the configuration and the
   outside world call for: the 503, 530 and 454 of a command out of place, without TLS or without login, the
   220, 235, 535 and 451 of handshake and login, 250 for what is accepted, and at DATA what the store did.
   */
  lemma SessionAnswers(cfg: Config, s: Session, commands: seq<Command>, n: nat)
    requires Fresh(s) && n < |Transcript(cfg, s, commands).1|
    ensures n < |commands|
    ensures var t := Transcript(cfg, s, commands).1; Answered(cfg, s.tls, t[..n], t[n], commands[n].env)
  {
    hide Transcript, Answered, Follows;
    EntryOfCommand(cfg, s, commands, n);
    SessionFollows(cfg, s, commands[..n]);
    var (before, t) := Transcript(cfg, s, commands[..n]);
    var (word, args) := SplitCommand(commands[n].line);
    EveryAnswer(cfg, before, s.tls, t, VerbOf(word), args, commands[n].env);
  }

  // ------------------------------------------------------------------ what follows for mail

  /**
   The reply tells the truth about the store: a DATA that handed a message over ends with 250 if the store took
   it and with 451 if not, and 250 is answered to DATA in no other case.
   */
  lemma ReplyTellsTruth(cfg: Config, s: Session, commands: seq<Command>, n: nat)
    requires Fresh(s) && n < |Transcript(cfg, s, commands).1| && Transcript(cfg, s, commands).1[n].verb.DATA?
    ensures n < |commands|
    ensures var e, storeOk := Transcript(cfg, s, commands).1[n], commands[n].env.storeOk;
            && (e.handed.Some? ==> |e.replies| >= 2 && e.replies[|e.replies| - 1] == if storeOk then 250 else 451)
            && (250 in e.replies <==> e.handed.Some? && storeOk)
  {
    hide Transcript, PlaceOf, Secured, Recipients;
    SessionAnswers(cfg, s, commands, n);
    var e := Transcript(cfg, s, commands).1[n];
    if e.handed.Some? && commands[n].env.storeOk {
      assert e.replies[|e.replies| - 1] in e.replies;
    }
  }

  /** Where TLS is required, every message that is handed over came in a session that runs over TLS by then. */
  lemma HandedOverTls(cfg: Config, s: Session, commands: seq<Command>, n: nat)
    requires Fresh(s) && n < |Transcript(cfg, s, commands).1| && cfg.tlsRequired
    requires Transcript(cfg, s, commands).1[n].handed.Some?
    ensures s.tls || exists i :: 0 <= i < n && StarttlsSucceeded(Transcript(cfg, s, commands).1[i])
  {
    SessionAnswers(cfg, s, commands, n);
    var t := Transcript(cfg, s, commands).1;
    assert Secured(s.tls, t[..n]);
    if !s.tls {
      var i :| 0 <= i < n && StarttlsSucceeded(t[..n][i]);
      assert StarttlsSucceeded(t[i]);
    }
  }

  predicate Closes(e: Entry) { e.verb.QUIT? || e.replies == [220, 454] }

  lemma CloserCloses(cfg: Config, s: Session, line: string, env: Env)
    requires Closes(EntryOf(cfg, s, line, env))
    ensures !After(cfg, s, line, env).s.open
  {
    hide SplitCommand, VerbOf, Collect;
    var e := EntryOf(cfg, s, line, env);
    assert e.replies == [220, 454] ==> e.replies[0] == 220 && e.replies[1] == 454;
  }

  /** Nothing is answered any more after QUIT or a failed handshake. */
  lemma {:induction false} ClosedForGood(cfg: Config, s: Session, commands: seq<Command>, n: nat)
    requires n < |Transcript(cfg, s, commands).1| && Closes(Transcript(cfg, s, commands).1[n])
    ensures n == |Transcript(cfg, s, commands).1| - 1 && !Transcript(cfg, s, commands).0.open
  {
    hide After, EntryOf, Closes;
    var shorter := commands[..|commands| - 1];
    var (before, t) := Transcript(cfg, s, shorter);
    if n < |t| {
      assert Transcript(cfg, s, commands).1[n] == t[n];
      ClosedForGood(cfg, s, shorter, n);
    } else {
      CloserCloses(cfg, before, commands[|commands| - 1].line, commands[|commands| - 1].env);
    }
  }

  /**
   What DATA does with lines within the line limit in wire form, with at least one recipient: within the size
   limit it hands over exactly these lines, for the sender and the recipients of the session; over it, nothing,
   and the answer is 552. The bytes behind the final dot stay unread.
   */
  lemma DataHandsOver(cfg: Config, s: Session, env: Env, lines: seq<string>, rest: Stream)
    requires s.rcpts != [] && Carries(s.input, 0, Wire(lines), rest)
    requires (forall i :: 0 <= i < |lines| ==> Sendable(lines[i])) && cfg.maxSize < HALF_RANGE
    ensures var o := AfterData(cfg, s, env);
            if Counted(lines) <= cfg.maxSize then
              && o.handed == Some(Message(s.mailFrom, s.rcpts, Joined(lines), s.rcpts[0]))
              && o.replies == [354, if env.storeOk then 250 else 451] && o.s == s.(input := rest)
            else o.handed.None? && o.replies == [354, 552]
  {
    hide Collect, Carries, Wire;
    if Counted(lines) <= cfg.maxSize {
      DataRoundTrip(lines, s.input, rest, cfg.maxSize);
    } else {
      SizeDecides(lines, s.input, rest, cfg.maxSize);
    }
  }

  /** A line over 1024 characters ends the message: 500 for the line, and the part before it is handed over all the same. */
  lemma OverlongHandsOver(cfg: Config, s: Session, env: Env, lines: seq<string>, long: string, rest: Stream)
    requires s.rcpts != [] && Carries(s.input, 0, Unended(lines) + (long + "\n"), rest) && '\n' !in long && |WithoutCr(long)| > 1024
    requires (forall i :: 0 <= i < |lines| ==> Sendable(lines[i])) && Counted(lines) <= cfg.maxSize < HALF_RANGE
    ensures var o := AfterData(cfg, s, env);
            && o.handed == Some(Message(s.mailFrom, s.rcpts, Joined(lines), s.rcpts[0]))
            && o.replies == [354, 500, if env.storeOk then 250 else 451]
  {
    hide Collect, Carries;
    OverlongCollected(lines, long, s.input, rest, "", 0, cfg.maxSize);
    assert "" + Joined(lines) == Joined(lines);
  }

  // ------------------------------------------------------------------ no line breaks in envelopes

  predicate Plain(s: string) { '\r' !in s && '\n' !in s }

  /** Lines read from the connection have no line break inside. */
  lemma {:induction false} LinesArePlain(input: Stream, text: string, faults: nat)
    requires Plain(text)
    ensures LineFrom(input, text, faults).ok ==> Plain(LineFrom(input, text, faults).text)
    decreases |input|
  {
    if input != [] {
      match input[0]
      case Fault => LinesArePlain(input[1..], text, faults + 1);
      case Byte(c) =>
        if c == '\r' { LinesArePlain(input[1..], text, 0); }
        else if c != '\n' && |text| < MAX_LINE { LinesArePlain(input[1..], text + [c], 0); }
    }
  }

  lemma {:induction false} SkippedIsPlain(s: string)
    requires Plain(s)
    ensures Plain(SkipSpaces(s))
  {
    if s != "" && Space(s[0]) {
      assert forall c :: c in s[1..] ==> c in s;
      SkippedIsPlain(s[1..]);
    }
  }

  lemma ArgsArePlain(line: string)
    requires Plain(line)
    ensures Plain(SplitCommand(line).1)
  {
    SkippedIsPlain(line);
    var s := SkipSpaces(line);
    assert forall c :: c in SplitCommand(line).1 ==> c in s;
  }

  predicate AllPlain(t: seq<Entry>) { forall i :: 0 <= i < |t| ==> Plain(t[i].args) }

  lemma {:induction false} EnvelopeIsPlain(t: seq<Entry>)
    requires AllPlain(t)
    ensures Plain(Sender(t)) && AllPlain(Recent(t))
  {
    if t != [] {
      assert AllPlain(t[..|t| - 1]);
      EnvelopeIsPlain(t[..|t| - 1]);
    }
  }

  lemma {:induction false} RecipientsArePlain(t: seq<Entry>)
    requires AllPlain(t)
    ensures forall i :: 0 <= i < |RcptArgs(t)| ==> Plain(RcptArgs(t)[i])
  {
    if t != [] {
      assert AllPlain(t[..|t| - 1]);
      RecipientsArePlain(t[..|t| - 1]);
    }
  }

  /**
   Sender and recipients of every message handed over are single lines when the command lines are, as lines read
   from the connection are; so the stored file is always read back as it was meant.
   */
  lemma HandedIsPlain(cfg: Config, s: Session, commands: seq<Command>, n: nat)
    requires Fresh(s) && n < |Transcript(cfg, s, commands).1| && Transcript(cfg, s, commands).1[n].handed.Some?
    requires forall i :: 0 <= i < |commands| ==> Plain(commands[i].line)
    ensures var m := Transcript(cfg, s, commands).1[n].handed.value;
            Plain(m.from) && forall i :: 0 <= i < |m.recipients| ==> Plain(m.recipients[i])
  {
    hide Transcript, Plain;
    var t := Transcript(cfg, s, commands).1;
    EveryMessageFits(cfg, s, commands, n);
    forall i | 0 <= i < n ensures Plain(t[i].args) {
      EntryOfCommand(cfg, s, commands, i);
      ArgsArePlain(commands[i].line);
    }
    assert AllPlain(t[..n]);
    EnvelopeIsPlain(t[..n]);
    RecipientsArePlain(Recent(t[..n]));
  }
}
