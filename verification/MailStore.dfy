/**
 The message store's operations as written. The ghost `trail` records the state after every file
 operation, so that a statement about every element of the trail is a statement about every point at
 which the machine can crash.
 */
module MailStore {
  import opened Disk
  import opened Runs
  import opened Strings
  import opened StoredText
  import opened StoreProtocol

  datatype Reply = Accepted250 | Failed451

  ghost predicate FinalsSame(fs: Files, fs': Files) {
    forall q: Path :: !q.temp ==> (q in fs <==> q in fs') && (q in fs ==> fs'[q] == fs[q])
  }

  /** Final paths other than `p` are as they were. */
  ghost predicate FinalsSameBut(fs: Files, fs': Files, p: Path) {
    forall q: Path :: q != p && !q.temp ==> (q in fs <==> q in fs') && (q in fs ==> fs'[q] == fs[q])
  }

  class MailStore {
    var files: Files
    ghost var pc: Pc
    ghost var used: set<Key>
    ghost var stored: map<Key, string>
    var returned: set<Key>  // ids given back to sessions that have not replied yet
    ghost var acked: set<Key>
    ghost var deleted: set<Key>
    ghost var trail: seq<StoreState>

    ghost function World(): StoreState
      reads this
    {
      StoreState(files, pc, used, stored, returned, acked, deleted)
    }

    /** The trail is a run of the protocol that ends in the present state. */
    ghost predicate Valid()
      reads this
    {
      IsRun(AnyNext, trail) && trail[|trail| - 1] == World()
    }

    ghost predicate Ready()
      reads this
    {
      Valid() && pc.Idle?
    }

    constructor ()
      ensures Ready() && trail == [World()] && Init(World())
    {
      files, pc, used, stored, returned, acked, deleted := map[], Idle, {}, map[], {}, {}, {};
      trail := [StoreState(map[], Idle, {}, map[], {}, {}, {})];
    }

    /** Records one file operation. */
    ghost method Note(a: Action)
      requires IsRun(AnyNext, trail)
      requires Enabled(trail[|trail| - 1], a) && World() == Effect(trail[|trail| - 1], a)
      modifies `trail
      ensures Valid() && trail == old(trail) + [World()]
      ensures IsRun(Next, old(trail)) && Fresh(old(trail)[|old(trail)| - 1], a) ==> IsRun(Next, trail)
    {
      trail := trail + [World()];
      assert AnyNext(trail[|trail| - 2], trail[|trail| - 1]);
      if Fresh(trail[|trail| - 2], a) {
        assert Next(trail[|trail| - 2], trail[|trail| - 1]);
      }
    }

    /** Whether the system grants a request is up to the system. */
    method Granted() returns (ok: bool)
    {
      ok := true;
    }

    /** How many of `total` characters a write gets to the file. */
    method Transferred(total: nat) returns (n: nat)
      ensures n <= total
    {
      n := total;
    }

    /** The failure exits of atomicWriteFile. */
    method Abandon(k: Key)
      requires Valid() && pc == Aborting(k)
      modifies this
      ensures Ready() && old(trail) <= trail && FinalsSameBut(old(files), files, TempPath(k))
      ensures IsRun(Next, old(trail)) ==> IsRun(Next, trail)
      ensures stored == old(stored) && returned == old(returned) && acked == old(acked) && deleted == old(deleted)
    {
      var ok := Granted();
      if ok { files := Removed(files, TempPath(k)); }
      pc := Idle;
      Note(Abort(ok));
    }

    method CreateTempFile(k: Key, content: string) returns (ok: bool)
      requires Valid() && pc == Creating(k, content)
      modifies this
      ensures Valid() && old(trail) <= trail && FinalsSameBut(old(files), files, TempPath(k))
      ensures pc == if ok then Writing(k, content) else Idle
      ensures IsRun(Next, old(trail)) ==> IsRun(Next, trail)
      ensures stored == old(stored) && returned == old(returned) && acked == old(acked) && deleted == old(deleted)
    {
      ok := Granted();
      if ok { files := files[TempPath(k) := File("", false, 0)]; }
      pc := if ok then Writing(k, content) else Idle;
      Note(CreateTemp(ok));
    }

    method FillTempFile(k: Key, content: string) returns (ok: bool)
      requires Valid() && pc == Writing(k, content)
      modifies this
      ensures Valid() && old(trail) <= trail && FinalsSameBut(old(files), files, TempPath(k))
      ensures ok ==> pc == Written(k, content) && TempPath(k) in files && files[TempPath(k)].data == content
      ensures !ok ==> pc.Idle?
      ensures IsRun(Next, old(trail)) ==> IsRun(Next, trail)
      ensures stored == old(stored) && returned == old(returned) && acked == old(acked) && deleted == old(deleted)
    {
      var n := Transferred(|content|);
      files := files[TempPath(k) := File(content[..n], false, 0)];
      ok := n == |content|;
      assert ok ==> content[..n] == content;
      pc := if ok then Written(k, content) else Aborting(k);
      Note(WriteTemp(n));
      if !ok { Abandon(k); }
    }

    method FlushTempFile(k: Key, content: string) returns (ok: bool)
      requires Valid() && pc == Written(k, content) && TempPath(k) in files && files[TempPath(k)].data == content
      modifies this
      ensures Valid() && old(trail) <= trail && FinalsSameBut(old(files), files, TempPath(k))
      ensures ok ==> pc == Flushed(k, content) && TempPath(k) in files && files[TempPath(k)].data == content && files[TempPath(k)].durable
      ensures !ok ==> pc.Idle?
      ensures IsRun(Next, old(trail)) ==> IsRun(Next, trail)
      ensures stored == old(stored) && returned == old(returned) && acked == old(acked) && deleted == old(deleted)
    {
      ok := Granted();
      if ok { files := files[TempPath(k) := files[TempPath(k)].(durable := true)]; }
      pc := if ok then Flushed(k, content) else Aborting(k);
      Note(FlushTemp(ok));
      if !ok { Abandon(k); }
    }

    /** The rename and the final existence test of atomicWriteFile. */
    method PublishTempFile(k: Key, content: string) returns (ok: bool)
      requires Valid() && pc == Flushed(k, content) && TempPath(k) in files
      requires files[TempPath(k)].data == content && files[TempPath(k)].durable
      modifies this
      ensures Ready() && old(trail) <= trail
      ensures IsRun(Next, old(trail)) ==> IsRun(Next, trail)
      ensures FinalsSameBut(old(files), files, if ok then InboxPath(k) else TempPath(k))
      ensures ok ==> InboxPath(k) in files && files[InboxPath(k)].data == content && files[InboxPath(k)].durable
      ensures ok ==> stored == old(stored)[k := content] && returned == old(returned) + {k}
      ensures !ok ==> stored == old(stored) && returned == old(returned)
      ensures acked == old(acked) && deleted == old(deleted)
    {
      hide IsRun, Next, AnyNext;
      ok := Granted();
      if !ok {
        pc := Aborting(k);
        Note(Publish(ok));
        Abandon(k);
        return;
      }
      files := Renamed(files, TempPath(k), InboxPath(k));
      stored := stored[k := content];
      pc := Published(k);
      Note(Publish(ok));
      ok := InboxPath(k) in files;
      pc := Idle;
      returned := returned + {k};
      Note(Verify);
    }

    /**
     atomicWriteFile: the final path gets the whole new content or keeps what it had, and no other
     final path changes.
     */
    method AtomicWriteFile(k: Key, content: string) returns (ok: bool)
      requires Valid() && pc == Creating(k, content)
      modifies this
      ensures Ready() && old(trail) <= trail
      ensures IsRun(Next, old(trail)) ==> IsRun(Next, trail)
      ensures FinalsSameBut(old(files), files, if ok then InboxPath(k) else TempPath(k))
      ensures ok ==> InboxPath(k) in files && files[InboxPath(k)].data == content && files[InboxPath(k)].durable
      ensures ok ==> stored == old(stored)[k := content] && returned == old(returned) + {k}
      ensures !ok ==> stored == old(stored) && returned == old(returned)
      ensures acked == old(acked) && deleted == old(deleted)
    {
      ok := CreateTempFile(k, content);
      if !ok { return; }
      ok := FillTempFile(k, content);
      if !ok { return; }
      ok := FlushTempFile(k, content);
      if !ok { return; }
      ok := PublishTempFile(k, content);
    }

    /** store: `ms` is the clock reading that names a message without an id. */
    method Store(msg: StoredMessage, ms: nat) returns (id: string)
      requires Ready()
      modifies this
      ensures Ready() && old(trail) <= trail
      ensures id != "" ==>
                var k := Key(msg.mailboxUser, id);
                && id == (if msg.id == "" then Decimal(ms) else msg.id) && msg.mailboxUser != ""
                && InboxPath(k) in files && files[InboxPath(k)].data == Rendered(msg, id) && files[InboxPath(k)].durable
                && IsStored(files[InboxPath(k)].data, msg, id)
                && k in returned && stored == old(stored)[k := Rendered(msg, id)]
                && FinalsSameBut(old(files), files, InboxPath(k))
                && (IsRun(Next, old(trail)) && k !in old(used) ==> IsRun(Next, trail))
      ensures id == "" ==> stored == old(stored) && FinalsSame(old(files), files)
      ensures acked == old(acked) && deleted == old(deleted)
    {
      hide IsStored, Rendered, IsRun, Next, AnyNext;
      if msg.mailboxUser == "" { return ""; }
      id := if msg.id == "" then Decimal(ms) else msg.id;
      var content := Render(msg, id);
      StoredRead(msg, id);
      var k := Key(msg.mailboxUser, id);
      pc := Creating(k, content);
      used := used + {k};
      Note(Begin(k, content));
      var ok := AtomicWriteFile(k, content);
      if !ok { return ""; }
    }

    /** The end of handleData: 250 goes out only after the message is on disk. */
    method StoreAndReply(msg: StoredMessage, ms: nat) returns (reply: Reply, ghost k: Key)
      requires Ready() && msg.id == ""
      modifies this
      ensures Ready() && old(trail) <= trail
      ensures k == Key(msg.mailboxUser, Decimal(ms))
      ensures reply.Accepted250? ==> acked == old(acked) + {k} && InboxPath(k) in files && files[InboxPath(k)].durable
                                     && IsStored(files[InboxPath(k)].data, msg, k.id)
      ensures reply.Failed451? ==> acked == old(acked)
      ensures reply.Accepted250? && IsRun(Next, old(trail)) && k !in old(used) ==> IsRun(Next, trail)
    {
      hide IsStored, Rendered;
      k := Key(msg.mailboxUser, Decimal(ms));
      var id := Store(msg, ms);
      if id == "" { return Failed451, k; }
      acked := acked + {k};
      Note(Acknowledge(k));
      return Accepted250, k;
    }

    method MoveToQuarantine(user: string, id: string) returns (ok: bool)
      requires Ready()
      modifies this
      ensures Ready() && old(trail) <= trail && (IsRun(Next, old(trail)) ==> IsRun(Next, trail))
      ensures var k := Key(user, id);
              files == if ok && InboxPath(k) in old(files) then Renamed(old(files), InboxPath(k), QuarantinePath(k)) else old(files)
      ensures ok ==> InboxPath(Key(user, id)) in old(files)
      ensures stored == old(stored) && returned == old(returned) && acked == old(acked) && deleted == old(deleted)
    {
      var k := Key(user, id);
      ok := Granted();
      if InboxPath(k) !in files || !ok { return false; }
      files := Renamed(files, InboxPath(k), QuarantinePath(k));
      Note(MoveAside(k));
    }

    /** deleteMessage: a file that is not there is no failure. */
    method DeleteMessage(user: string, id: string) returns (ok: bool)
      requires Ready()
      modifies this
      ensures Ready() && old(trail) <= trail && (IsRun(Next, old(trail)) ==> IsRun(Next, trail))
      ensures files == if ok then Removed(old(files), InboxPath(Key(user, id))) else old(files)
      ensures deleted == if ok && InboxPath(Key(user, id)) in old(files) then old(deleted) + {Key(user, id)} else old(deleted)
      ensures stored == old(stored) && returned == old(returned) && acked == old(acked)
    {
      var k := Key(user, id);
      ok := Granted();
      if !ok { return; }
      if InboxPath(k) in files { deleted := deleted + {k}; }
      files := Removed(files, InboxPath(k));
      Note(Delete(k));
    }

    method SweepFile(p: Path) returns (ok: bool)
      requires Ready() && p.temp
      modifies this
      ensures Ready() && old(trail) <= trail && (IsRun(Next, old(trail)) ==> IsRun(Next, trail))
      ensures files == if ok then Removed(old(files), p) else old(files)
      ensures stored == old(stored) && returned == old(returned) && acked == old(acked) && deleted == old(deleted)
    {
      ok := Granted();
      if ok {
        files := Removed(files, p);
        Note(SweepOne(p));
      }
    }

    /** The startup sweep: one removal after the other, any of which may fail. */
    method RecoverOrphanedTempFiles() returns (refused: set<Path>)
      requires Ready()
      modifies this
      ensures Ready() && old(trail) <= trail && (IsRun(Next, old(trail)) ==> IsRun(Next, trail))
      ensures files == SweptBut(old(files), refused)
      ensures refused == {} ==> files == Swept(old(files))
      ensures stored == old(stored) && returned == old(returned) && acked == old(acked) && deleted == old(deleted)
    {
      refused := {};
      var todo := set p | p in files && p.temp;
      ghost var all := todo;
      assert files == SweptBut(files, todo);
      while todo != {}
        invariant Ready() && old(trail) <= trail && (IsRun(Next, old(trail)) ==> IsRun(Next, trail))
        invariant todo <= all && todo !! refused
        invariant files == SweptBut(old(files), refused + todo)
        invariant stored == old(stored) && returned == old(returned) && acked == old(acked) && deleted == old(deleted)
      {
        var p :| p in todo;
        todo := todo - {p};
        var ok := SweepFile(p);
        if !ok { refused := refused + {p}; }
      }
    }
  }

  /** Every temp file but those that could not be removed is gone. */
  ghost function SweptBut(fs: Files, kept: set<Path>): Files {
    map p | p in fs && (!p.temp || p in kept) :: fs[p]
  }

  /**
   For every crash point the trail of any sequence of operations passed through: what the startup
   sweep finds there is complete, and every message acknowledged by then is whole or was deleted.
   */
  lemma EveryCrashPointSafe(trail: seq<StoreState>, i: nat, after: Files, k: Key)
    requires IsRun(Next, trail) && Init(trail[0]) && i < |trail| && SurvivesPowerLoss(trail[i].files, after)
    requires k in trail[i].acked && k !in trail[i].deleted
    ensures k in trail[i].stored
    ensures var found := Swept(after);
            exists p :: (p == InboxPath(k) || p == QuarantinePath(k)) && p in found && found[p].data == trail[i].stored[k]
  {
    AcknowledgedKept(trail, i, i, k);
    var p := if WholeAt(trail[i], InboxPath(k), k) then InboxPath(k) else QuarantinePath(k);
    assert p in Swept(after) && Swept(after)[p].data == trail[i].stored[k];
  }
}
