/**
 The session object: one handler per command, and the loop that reads commands from the connection. The message
 of a DATA goes to the message store, whose answer decides the reply.
 */
module SmtpSession {
  import opened Options
  import opened SmtpFraming
  import opened SmtpProtocol
  import opened StoredText
  import opened Strings
  import MailStore
  import StoreProtocol

  /** The message as the store is given it. */
  function Storable(m: Message): StoredMessage {
    StoredMessage("", m.from, m.recipients, m.rawData, m.mailboxUser)
  }

  /** A message answered with 250 lies flushed in its INBOX, in a file that tells a reader what was handed over. */
  ghost predicate OnDisk(store: MailStore.MailStore, m: Message, ms: nat)
    reads store
  {
    var k := StoreProtocol.Key(m.mailboxUser, Decimal(ms));
    var p := StoreProtocol.InboxPath(k);
    k in store.acked && p in store.files && store.files[p].durable && IsStored(store.files[p].data, Storable(m), Decimal(ms))
  }

  /** Some message of the entry's mailbox was acknowledged, if the entry ends with 250 at DATA. */
  ghost predicate Acknowledged(acked: set<StoreProtocol.Key>, e: Entry) {
    e.handed.Some? && e.replies != [] && e.replies[|e.replies| - 1] == 250 ==>
      exists id :: StoreProtocol.Key(e.handed.value.mailboxUser, id) in acked
  }

  class SmtpSession {
    const cfg: Config
    const store: MailStore.MailStore
    var state: State
    var authed: bool
    var tlsActive: bool
    var mailFrom: string
    var rcptTo: seq<string>
    var connected: bool
    var input: Stream
    ghost var transcript: seq<Entry>

    ghost function View(): Session
      reads this
    {
      Session(state, authed, tlsActive, mailFrom, rcptTo, connected, input)
    }

    constructor (cfg: Config, store: MailStore.MailStore, tls: bool, input: Stream)
      ensures Fresh(View()) && tlsActive == tls && this.input == input && this.cfg == cfg && this.store == store
      ensures transcript == [] && Agrees(View(), transcript)
    {
      this.cfg, this.store := cfg, store;
      state, authed, tlsActive, connected := CONNECTED, false, tls, true;
      mailFrom, rcptTo, this.input := "", [], input;
      transcript := [];
    }

    method HandleStarttls(env: Env) returns (replies: seq<nat>)
      modifies this
      ensures Outcome(View(), replies, None) == AfterStarttls(old(View()), env) && transcript == old(transcript)
    {
      if tlsActive { return [454]; }
      replies := [220];
      if !env.tlsOk {
        replies := replies + [454];
        connected := false;
        return;
      }
      tlsActive := true;
      input := env.tlsInput;
      authed := false;
      mailFrom := "";
      rcptTo := [];
    }

    method HandleAuth(env: Env) returns (replies: seq<nat>)
      modifies this
      ensures Outcome(View(), replies, None) == AfterAuth(old(View()), env) && transcript == old(transcript)
    {
      if authed { return [503]; }
      if env.login.Wrong? { return [535]; }
      if env.login.Failing? { return [451]; }
      authed := true;
      return [235];
    }

    method HandleMailFrom(args: string) returns (replies: seq<nat>)
      modifies this
      ensures View() == old(View()).(mailFrom := args, rcpts := []) && replies == [250] && transcript == old(transcript)
    {
      mailFrom := args;
      rcptTo := [];
      return [250];
    }

    method HandleRcptTo(args: string) returns (replies: seq<nat>)
      modifies this
      ensures View() == old(View()).(rcpts := old(rcptTo) + [args]) && replies == [250] && transcript == old(transcript)
    {
      rcptTo := rcptTo + [args];
      return [250];
    }

    /**
     handleData: collects the text from the connection and gives the message to the store. `took` says what the
     store did; the reply is 250 exactly if the message is on disk. `ms` is the clock reading that names it.
     */
    method HandleData(env: Env, ms: nat) returns (replies: seq<nat>, handed: Option<Message>, took: bool)
      requires store.Ready()
      modifies this, store
      ensures store.Ready() && old(store.trail) <= store.trail && old(store.acked) <= store.acked
      ensures Outcome(View(), replies, handed) == AfterData(cfg, old(View()), env.(storeOk := took)) && transcript == old(transcript)
      ensures handed.Some? ==> replies != [] && (replies[|replies| - 1] == 250 <==> took)
      ensures took ==> handed.Some? && OnDisk(store, handed.value, ms)
      ensures !took ==> store.acked == old(store.acked)
    {
      handed, took := None, false;
      if rcptTo == [] { return [503], None, false; }
      replies := [354];
      var r := CollectData(input, cfg.maxSize);
      input := r.rest;
      match r {
        case TooBig(_) => replies := replies + [552];
        case TooComplex(_) => replies := replies + [451];
        case Text(body, _, tooLong) =>
          if tooLong { replies := replies + [500]; }
          handed := Some(Message(mailFrom, rcptTo, body, rcptTo[0]));
          took := Hand(handed.value, ms);
          replies := replies + [if took then 250 else 451];
      }
    }

    /** The end of handleData: the store answers with an id or without one. */
    method Hand(m: Message, ms: nat) returns (took: bool)
      requires store.Ready()
      modifies store
      ensures store.Ready() && old(store.trail) <= store.trail && old(store.acked) <= store.acked
      ensures if took then OnDisk(store, m, ms) else store.acked == old(store.acked)
    {
      var reply, k := store.StoreAndReply(Storable(m), ms);
      took := reply.Accepted250?;
    }

    /** DATA: after it the dialogue is back behind MAIL, without sender and recipients. */
    method DataCommand(args: string, env: Env, ms: nat) returns (replies: seq<nat>, handed: Option<Message>, took: bool)
      requires store.Ready()
      modifies this, store
      ensures store.Ready() && old(store.trail) <= store.trail && old(store.acked) <= store.acked
      ensures Outcome(View(), replies, handed) == AfterCommand(cfg, old(View()), DATA, args, env.(storeOk := took))
      ensures transcript == old(transcript)
      ensures handed.Some? ==> replies != [] && (replies[|replies| - 1] == 250 <==> took)
      ensures took ==> handed.Some? && OnDisk(store, handed.value, ms)
      ensures !took ==> store.acked == old(store.acked)
    {
      hide OnDisk;
      if state != RCPT_TO { return [503], None, false; }
      if cfg.tlsRequired && !tlsActive { return [530], None, false; }
      replies, handed, took := HandleData(env, ms);
      state := MAIL_FROM;
      mailFrom := "";
      rcptTo := [];
    }

    method OtherCommand(verb: Verb, args: string, env: Env) returns (replies: seq<nat>)
      requires !verb.DATA?
      modifies this
      ensures Outcome(View(), replies, None) == AfterCommand(cfg, old(View()), verb, args, env)
      ensures transcript == old(transcript)
    {
      match verb {
        case EHLO =>
          replies := [];
          state := HELO_EHLO;
        case HELO =>
          replies := [250];
          state := HELO_EHLO;
        case STARTTLS =>
          if state == CONNECTED { return [503]; }
          replies := HandleStarttls(env);
        case AUTHENTICATE =>
          if state == CONNECTED { return [503]; }
          if cfg.startTlsRequired && !tlsActive { return [530]; }
          replies := HandleAuth(env);
          if authed {
            state := AUTH;
          }
        case MAIL =>
          if state == CONNECTED { return [503]; }
          if cfg.tlsRequired && !tlsActive { return [530]; }
          if !authed { return [530]; }
          replies := HandleMailFrom(args);
          state := MAIL_FROM;
        case RCPT =>
          if state != MAIL_FROM && state != RCPT_TO { return [503]; }
          if cfg.tlsRequired && !tlsActive { return [530]; }
          replies := HandleRcptTo(args);
          state := RCPT_TO;
        case QUIT =>
          replies := [221];
          connected := false;
        case RSET =>
          authed := false;
          mailFrom := "";
          rcptTo := [];
          state := HELO_EHLO;
          replies := [250];
        case NOOP => replies := [250];
        case OTHER => replies := [502];
      }
    }

    method Dispatch(verb: Verb, args: string, env: Env, ms: nat) returns (replies: seq<nat>, handed: Option<Message>, took: bool)
      requires store.Ready()
      modifies this, store
      ensures store.Ready() && old(store.trail) <= store.trail && old(store.acked) <= store.acked
      ensures Outcome(View(), replies, handed) == AfterCommand(cfg, old(View()), verb, args, env.(storeOk := took))
      ensures transcript == old(transcript)
      ensures handed.Some? ==> replies != [] && (replies[|replies| - 1] == 250 <==> took)
      ensures took ==> handed.Some? && OnDisk(store, handed.value, ms)
      ensures !took ==> store.acked == old(store.acked)
    {
      hide OnDisk, AfterCommand;
      if verb == DATA {
        replies, handed, took := DataCommand(args, env, ms);
      } else {
        replies := OtherCommand(verb, args, env.(storeOk := false));
        handed, took := None, false;
      }
    }

    method HandleCommand(line: string, env: Env, ms: nat) returns (replies: seq<nat>, handed: Option<Message>, took: bool)
      requires store.Ready()
      modifies this, store
      ensures store.Ready() && old(store.trail) <= store.trail && old(store.acked) <= store.acked
      ensures Outcome(View(), replies, handed) == After(cfg, old(View()), line, env.(storeOk := took))
      ensures transcript == old(transcript) + [EntryOf(cfg, old(View()), line, env.(storeOk := took))]
      ensures EntryOf(cfg, old(View()), line, env.(storeOk := took)).handed == handed
      ensures handed.Some? ==> replies != [] && (replies[|replies| - 1] == 250 <==> took)
      ensures took ==> handed.Some? && OnDisk(store, handed.value, ms)
      ensures !took ==> store.acked == old(store.acked)
      ensures Acknowledged(store.acked, EntryOf(cfg, old(View()), line, env.(storeOk := took)))
    {
      var (word, args) := SplitCommand(line);
      replies, handed, took := Dispatch(VerbOf(word), args, env, ms);
      transcript := transcript + [Entry(VerbOf(word), args, replies, handed)];
    }

    /** What the world answers to the next command, and the clock. */
    method Surroundings() returns (env: Env, ms: nat, timedOut: bool) {
      env, ms, timedOut := Env(true, [], Right, true), 0, false;
    }

    /**
     The command loop of run. Every message it hands to the store on the way fits the transcript of
     what the client was told, and every 250 at DATA stands for an acknowledged message in the store.
     */
    method Run()
      requires store.Ready()
      requires Agrees(View(), transcript) && forall n :: 0 <= n < |transcript| ==> Fits(transcript[..n], transcript[n])
      requires forall n :: 0 <= n < |transcript| ==> Acknowledged(store.acked, transcript[n])
      modifies this, store
      ensures store.Ready() && old(store.trail) <= store.trail
      ensures Agrees(View(), transcript) && old(transcript) <= transcript
      ensures forall n :: 0 <= n < |transcript| ==> Fits(transcript[..n], transcript[n])
      ensures forall n :: 0 <= n < |transcript| ==> Acknowledged(store.acked, transcript[n])
    {
      hide ReadingOf, Fits, ReadLine, Acknowledged, OnDisk;
      while true
        invariant store.Ready() && old(store.trail) <= store.trail
        invariant Agrees(View(), transcript) && old(transcript) <= transcript
        invariant forall n :: 0 <= n < |transcript| ==> Fits(transcript[..n], transcript[n])
        invariant forall n :: 0 <= n < |transcript| ==> Acknowledged(store.acked, transcript[n])
        decreases !tlsActive, |input|
      {
        var line := ReceiveLine(input);
        input := line.rest;
        if !line.ok { break; }
        if line.text == "" { continue; }
        var env, ms, timedOut := Surroundings();
        if timedOut { break; }
        ghost var s, t, acked := View(), transcript, store.acked;
        var replies, handed, took := HandleCommand(line.text, env, ms);
        CommandConsumes(cfg, s, line.text, env.(storeOk := took));
        assert Agrees(After(cfg, s, line.text, env.(storeOk := took)).s, t + [EntryOf(cfg, s, line.text, env.(storeOk := took))]) by {
          var (word, args) := SplitCommand(line.text);
          CommandKeepsAgreement(cfg, s, t, VerbOf(word), args, env.(storeOk := took));
        }
        hide After, EntryOf;
        HandedFits(cfg, s, t, line.text, env.(storeOk := took));
        forall n | 0 <= n < |transcript|
          ensures Fits(transcript[..n], transcript[n]) && Acknowledged(store.acked, transcript[n])
        {
          if n < |t| {
            assert transcript[..n] == t[..n] && transcript[n] == t[n];
            StaysAcknowledged(acked, store.acked, t[n]);
          } else {
            assert transcript[..n] == t;
          }
        }
        if !connected { break; }
      }
    }
  }

  lemma StaysAcknowledged(acked: set<StoreProtocol.Key>, acked': set<StoreProtocol.Key>, e: Entry)
    requires acked <= acked' && Acknowledged(acked, e)
    ensures Acknowledged(acked', e)
  {
  }
}
