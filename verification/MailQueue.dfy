/**
 The queue operations as written in the server: file operation after file operation, with every
 other thread free to run in between. Each method is shown to be a run of the queue protocol; what
 it achieves for its own message is stated beside that.

 `alone` says that no other thread and no clock tick intervened, `led` only that no other thread moved
 a message into or out of `inflight`, as under leader election (Cluster.InflightStays), and `healthy`
 that the file system refused nothing; none of them is known to the code.
 */
module MailQueue {
  import opened Disk
  import opened Runs
  import opened QueueProtocol
  import opened Envelope

  const MAX_QUEUE_DEPTH := 100000

  datatype QueueMessage = QueueMessage(id: string, from: string, to: string, rawData: string)

  datatype Fetch = Nothing | Ready(msg: QueueMessage) | Thrown

  datatype Enqueued = Queued(id: string) | DepthExceeded | WriteFailed

  datatype Report = NoMessage | Died | Handled(msg: QueueMessage, from: string, to: string)

  /** A step of any thread but `t`; the machine stays up. */
  ghost function OtherNext(t: Thread): (Sys, Sys) -> bool {
    (s, s') => exists u: Thread, a: Action :: u != t && !a.PowerLoss? && Enabled(s, u, a) && s' == Effect(s, u, a)
  }

  /** What `t` may rely on while others run: its own place, the history, the clock, and shelved or removed messages. */
  ghost predicate Undisturbed(t: Thread, s: Sys, s': Sys) {
    && PcOf(s', t) == PcOf(s, t)
    && s.now <= s'.now && s.issued <= s'.issued && s.delivered <= s'.delivered
    && (forall id :: id in s.accepted ==> id in s'.accepted && s'.accepted[id] == s.accepted[id])
    && (forall id :: id in s'.accepted && id !in s.accepted ==> !(Enqueuing(PcOf(s, t)) && PcOf(s, t).id == id))
  }

  lemma UndisturbedByStep(t: Thread, s0: Sys, s: Sys, u: Thread, a: Action)
    requires Inv(s) && Undisturbed(t, s0, s) && u != t && !a.PowerLoss? && Enabled(s, u, a)
    ensures Undisturbed(t, s0, Effect(s, u, a))
  {
    OthersStand(s, u, a, t);
    assert WriterSound(s, u) && WritersDiffer(s, u, t);
    HistoryGrows(s, u, a, Effect(s, u, a));
  }

  lemma {:induction false} OthersRun(t: Thread, run: seq<Sys>)
    requires IsRun(OtherNext(t), run) && Inv(run[0])
    ensures Inv(run[|run| - 1]) && Undisturbed(t, run[0], run[|run| - 1]) && Reaches(Next, run[0], run[|run| - 1])
    decreases |run|
  {
    if |run| == 1 {
      Stays(Next, run[0]);
    } else {
      var shorter := run[..|run| - 1];
      assert IsRun(OtherNext(t), shorter);
      OthersRun(t, shorter);
      var s, s' := run[|run| - 2], run[|run| - 1];
      assert OtherNext(t)(s, s');
      var u: Thread, a: Action :| u != t && !a.PowerLoss? && Enabled(s, u, a) && s' == Effect(s, u, a);
      UndisturbedByStep(t, run[0], s, u, a);
      StepKeepsInv(s, u, a);
      assert Next(s, s');
      Extends(Next, run[0], s, s');
    }
  }

  lemma ReachedInv(start: Sys, s: Sys)
    requires Inv(start) && Reaches(Next, start, s)
    ensures Inv(s)
  {
    InvInductive();
    ReachesKeeps(Next, Inv, start, s);
  }

  lemma FlushedWhole(start: Sys, s: Sys, t: Thread)
    requires Inv(start) && Reaches(Next, start, s) && PcOf(s, t).Flushed? && Temp(PcOf(s, t).id) in s.files
    ensures s.files[Temp(PcOf(s, t).id)].data == PcOf(s, t).content && s.files[Temp(PcOf(s, t).id)].durable
  {
    ReachedInv(start, s);
    assert WriterSound(s, t);
  }

  lemma UnissuedUnaccepted(start: Sys, s: Sys, id: string)
    requires Inv(start) && Reaches(Next, start, s) && id !in s.issued
    ensures id !in s.accepted
  {
    ReachedInv(start, s);
  }

  lemma WritingUnaccepted(start: Sys, s: Sys, t: Thread)
    requires Inv(start) && Reaches(Next, start, s) && Enqueuing(PcOf(s, t))
    ensures PcOf(s, t).id !in s.accepted
  {
    ReachedInv(start, s);
    assert WriterSound(s, t);
  }

  lemma PublishedAccepted(start: Sys, s: Sys, t: Thread)
    requires Inv(start) && Reaches(Next, start, s) && PcOf(s, t).Published?
    ensures PcOf(s, t).id in s.accepted
  {
    ReachedInv(start, s);
    assert WriterSound(s, t);
  }

  lemma PlacedOnce(start: Sys, s: Sys, f: Folder, id: string)
    requires Inv(start) && Reaches(Next, start, s) && QueueFolder(f) && Msg(f, id) in s.files
    ensures id in s.accepted && s.files[Msg(f, id)] == s.accepted[id]
    ensures forall g :: QueueFolder(g) && g != f ==> Msg(g, id) !in s.files
  {
    ReachedInv(start, s);
  }

  lemma Waited(start: Sys, t: Thread, s: Sys, s': Sys)
    requires Inv(start) && Reaches(Next, start, s) && Reaches(OtherNext(t), s, s')
    ensures Undisturbed(t, s, s') && Reaches(Next, start, s')
  {
    ReachedInv(start, s);
    var run :| IsRun(OtherNext(t), run) && run[0] == s && run[|run| - 1] == s';
    OthersRun(t, run);
    Joins(Next, start, s, s');
  }

  lemma Took(start: Sys, t: Thread, a: Action, s: Sys, s': Sys)
    requires Reaches(Next, start, s) && Enabled(s, t, a) && s' == Effect(s, t, a)
    ensures Reaches(Next, start, s')
  {
    assert Next(s, s');
    Extends(Next, start, s, s');
  }

  /** The message of a failed enqueue: not accepted, or accepted whole and gone from `active`. */
  ghost predicate GivenUpOrLeft(s: Sys, id: string, content: string) {
    id in s.accepted ==> s.accepted[id].data == content && s.accepted[id].durable && Msg(Active, id) !in s.files
  }

  function ActiveIds(fs: Files): set<string> {
    set p | p in fs && p.folder == Active && !p.temp :: p.name
  }

  /** A message waiting for a worker: in `active`, or in `inflight` under an expired lease. */
  predicate Waiting(fs: Files, now: nat, id: string) {
    Msg(Active, id) in fs || (Msg(Inflight, id) in fs && Expired(fs[Msg(Inflight, id)], now))
  }

  /** Some message that lay in `inflight` does not any more. */
  ghost predicate OneVanished(fs: Files, fs': Files) {
    exists id :: Msg(Inflight, id) in fs && Msg(Inflight, id) !in fs'
  }

  class MailQueue {
    var files: Files
    var now: nat
    ghost var pcs: map<Thread, Pc>
    var issued: set<string>  // what the id generator never repeats
    ghost var accepted: map<string, File>
    ghost var delivered: set<Delivery>

    ghost function World(): Sys
      reads this
    {
      Sys(files, now, pcs, issued, accepted, delivered)
    }

    /** Nothing promised: the other threads of the system run for as long as they like. */
    method Yield(ghost t: Thread, ghost alone: bool, ghost led: bool)
      modifies this
      ensures Reaches(OtherNext(t), old(World()), World())
      ensures alone ==> World() == old(World())
      ensures led ==> SameInflight(old(files), files)
    {
      Stays(OtherNext(t), World());
    }

    /** The gap before the next file operation. */
    method Pause(ghost t: Thread, ghost start: Sys, ghost alone: bool)
      requires Inv(start) && Reaches(Next, start, World())
      modifies this
      ensures Undisturbed(t, old(World()), World()) && Reaches(Next, start, World())
      ensures alone ==> World() == old(World())
    {
      ghost var s := World();
      Yield(t, alone, false);
      Waited(start, t, s, World());
    }

    /** fs::rename: fails when the source is gone, and may fail for other reasons. */
    method TryRename(src: Path, dst: Path, ghost healthy: bool) returns (ok: bool)
      modifies `files
      ensures ok ==> src in old(files) && files == Renamed(old(files), src, dst)
      ensures !ok ==> files == old(files)
      ensures healthy && src in old(files) ==> ok
    {
      ok := src in files;
      if ok {
        files := Renamed(files, src, dst);
      }
    }

    /** The names a directory iterator yields. */
    method List(folder: Folder) returns (ids: set<string>)
      ensures forall id :: id in ids <==> Msg(folder, id) in files
    {
      ids := set p | p in files && p.folder == folder && !p.temp :: p.name;
      forall id ensures id in ids <==> Msg(folder, id) in files {
        if Msg(folder, id) in files {
          assert Msg(folder, id).name == id;
        }
      }
    }

    /** genId, whose clock and random number stand for "an id not handed out before". */
    method GenId() returns (id: string)
      ensures id !in issued
    {
      var rest := issued;
      var n: nat := 0;
      while rest != {}
        invariant rest <= issued && forall s :: s in issued && s !in rest ==> |s| < n
      {
        var s :| s in rest;
        rest := rest - {s};
        n := if |s| < n then n else |s| + 1;
      }
      id := seq(n, _ => '0');
    }

    /** The depth test of enqueue: the messages in `active` are counted one by one. */
    method Depth() returns (depth: nat)
      ensures depth == |ActiveIds(files)|
    {
      var todo := List(Active);
      assert todo == ActiveIds(files);
      depth := 0;
      while todo != {}
        invariant todo <= ActiveIds(files) && depth + |todo| == |ActiveIds(files)|
      {
        var id :| id in todo;
        todo := todo - {id};
        depth := depth + 1;
      }
    }

    /** Whether the system grants a request is up to the system. */
    method Granted(ghost healthy: bool) returns (ok: bool)
      ensures healthy ==> ok
    {
      ok := true;
    }

    /** How many of `total` characters a write gets to the file. */
    method Transferred(total: nat, ghost healthy: bool) returns (n: nat)
      ensures n <= total && (healthy ==> n == total)
    {
      n := total;
    }

    /** The failure exits of atomicWriteFile: the temp file is deleted. */
    method Abandon(t: Thread, id: string, ghost start: Sys, ghost alone: bool, ghost healthy: bool)
      requires Inv(start) && PcOf(World(), t) == Aborting(id) && Reaches(Next, start, World())
      modifies this
      ensures Reaches(Next, start, World()) && PcOf(World(), t).Idle? && id !in accepted
      ensures alone ==> accepted == old(accepted)
    {
      Pause(t, start, alone);
      WritingUnaccepted(start, World(), t);
      ghost var s := World();
      var ok := Granted(healthy);
      if ok { files := Removed(files, Temp(id)); }
      pcs := pcs[t := Idle];
      Took(start, t, Abort(ok), s, World());
    }

    /** atomicWriteFile: the temp file is created ... */
    method CreateTempFile(t: Thread, id: string, content: string, ghost start: Sys, ghost alone: bool, ghost healthy: bool)
      returns (ok: bool)
      requires Inv(start) && PcOf(World(), t) == Creating(id, content) && Reaches(Next, start, World())
      modifies this
      ensures Reaches(Next, start, World()) && PcOf(World(), t) == if ok then Writing(id, content) else Idle
      ensures !ok ==> id !in accepted
      ensures alone ==> accepted == old(accepted) && (healthy ==> ok && Temp(id) in files)
    {
      Pause(t, start, alone);
      WritingUnaccepted(start, World(), t);
      ghost var s := World();
      ok := Granted(healthy);
      if ok { files := files[Temp(id) := File("", false, now)]; }
      pcs := pcs[t := if ok then Writing(id, content) else Idle];
      Took(start, t, CreateTemp(ok), s, World());
    }

    /** ... written ... */
    method WriteTempFile(t: Thread, id: string, content: string, ghost start: Sys, ghost alone: bool, ghost healthy: bool)
      returns (ok: bool)
      requires Inv(start) && PcOf(World(), t) == Writing(id, content) && Reaches(Next, start, World())
      modifies this
      ensures Reaches(Next, start, World()) && PcOf(World(), t) == if ok then Written(id, content) else Idle
      ensures !ok ==> id !in accepted
      ensures alone ==> accepted == old(accepted) && (healthy && Temp(id) in old(files) ==> ok && Temp(id) in files)
    {
      Pause(t, start, alone);
      ghost var s := World();
      var n := Transferred(|content|, healthy);
      if Temp(id) in files { files := files[Temp(id) := File(content[..n], false, now)]; }
      ok := n == |content|;
      assert ok ==> content[..n] == content;
      pcs := pcs[t := if ok then Written(id, content) else Aborting(id)];
      Took(start, t, WriteTemp(n), s, World());
      if !ok { Abandon(t, id, start, alone, healthy); }
    }

    /** ... and flushed. */
    method FlushTempFile(t: Thread, id: string, content: string, ghost start: Sys, ghost alone: bool, ghost healthy: bool)
      returns (ok: bool)
      requires Inv(start) && PcOf(World(), t) == Written(id, content) && Reaches(Next, start, World())
      modifies this
      ensures Reaches(Next, start, World()) && PcOf(World(), t) == if ok then Flushed(id, content) else Idle
      ensures !ok ==> id !in accepted
      ensures alone ==> accepted == old(accepted) && (healthy && Temp(id) in old(files) ==> ok && Temp(id) in files)
    {
      Pause(t, start, alone);
      ghost var s := World();
      ok := Granted(healthy);
      if ok && Temp(id) in files { files := files[Temp(id) := files[Temp(id)].(durable := true)]; }
      pcs := pcs[t := if ok then Flushed(id, content) else Aborting(id)];
      Took(start, t, FlushTemp(ok), s, World());
      if !ok { Abandon(t, id, start, alone, healthy); }
    }

    /** The rename of atomicWriteFile: with it the message is accepted. */
    method PublishTempFile(t: Thread, id: string, content: string, ghost start: Sys, ghost alone: bool, ghost healthy: bool)
      returns (ok: bool)
      requires Inv(start) && PcOf(World(), t) == Flushed(id, content) && Reaches(Next, start, World())
      modifies this
      ensures Reaches(Next, start, World()) && PcOf(World(), t) == if ok then Published(id) else Idle
      ensures ok ==> id in accepted && accepted[id].data == content && accepted[id].durable && Msg(Active, id) in files
      ensures !ok ==> id !in accepted
      ensures alone ==> accepted.Keys == old(accepted).Keys + (if ok then {id} else {})
      ensures alone && healthy && Temp(id) in old(files) ==> ok
    {
      hide Inv, Reaches, Next;
      Pause(t, start, alone);
      if Temp(id) in files { FlushedWhole(start, World(), t); }
      ghost var s := World();
      ok := TryRename(Temp(id), Msg(Active, id), healthy);
      if ok { accepted := accepted[id := files[Msg(Active, id)]]; }
      pcs := pcs[t := if ok then Published(id) else Aborting(id)];
      Took(start, t, Publish(ok), s, World());
      if !ok { Abandon(t, id, start, alone, healthy); }
    }

    /**
     atomicWriteFile and the answer of enqueue: success exactly if the message was accepted and still lies in
     `active`. So a failure is reported either for a message that is not accepted, or for one that is, whole,
     when a worker has leased it before the final existence test.
     */
    method WriteMessage(t: Thread, id: string, content: string, ghost start: Sys, ghost alone: bool, ghost healthy: bool)
      returns (ok: bool)
      requires Inv(start) && PcOf(World(), t) == Creating(id, content) && Reaches(Next, start, World())
      requires id !in accepted
      modifies this
      ensures Reaches(Next, start, World()) && PcOf(World(), t).Idle?
      ensures ok <==> id in accepted && Msg(Active, id) in files
      ensures id in accepted ==> accepted[id].data == content && accepted[id].durable
      ensures alone ==> accepted.Keys == old(accepted).Keys + (if ok then {id} else {}) && (healthy ==> ok)
    {
      hide Inv, Reaches, Next;
      ok := CreateTempFile(t, id, content, start, alone, healthy);
      if !ok { return; }
      ok := WriteTempFile(t, id, content, start, alone, healthy);
      if !ok { return; }
      ok := FlushTempFile(t, id, content, start, alone, healthy);
      if !ok { return; }
      ok := PublishTempFile(t, id, content, start, alone, healthy);
      if !ok { return; }
      ok := FindMessage(t, id, start, alone);
    }

    /** The final existence test of atomicWriteFile. */
    method FindMessage(t: Thread, id: string, ghost start: Sys, ghost alone: bool) returns (ok: bool)
      requires Inv(start) && PcOf(World(), t) == Published(id) && Reaches(Next, start, World())
      modifies this
      ensures Reaches(Next, start, World()) && PcOf(World(), t).Idle?
      ensures forall i :: i in old(accepted) ==> i in accepted && accepted[i] == old(accepted)[i]
      ensures id in accepted && (ok <==> Msg(Active, id) in files)
      ensures alone ==> accepted == old(accepted) && ok == (Msg(Active, id) in old(files))
    {
      Pause(t, start, alone);
      PublishedAccepted(start, World(), t);
      ok := Msg(Active, id) in files;
      ghost var s := World();
      pcs := pcs[t := Idle];
      Took(start, t, Verify(ok), s, World());
    }

    /** A fresh id for the message. */
    method BeginMessage(t: Thread, content: string, ghost start: Sys, ghost alone: bool) returns (id: string)
      requires Inv(start) && PcOf(World(), t).Idle? && Reaches(Next, start, World())
      modifies this
      ensures Reaches(Next, start, World()) && PcOf(World(), t) == Creating(id, content) && id !in accepted
      ensures id !in old(issued) && (alone ==> accepted == old(accepted))
    {
      Pause(t, start, alone);
      id := GenId();
      UnissuedUnaccepted(start, World(), id);
      ghost var s := World();
      pcs := pcs[t := Creating(id, content)];
      issued := issued + {id};
      Took(start, t, Begin(id, content), s, World());
    }

    /**
     enqueue: an id is returned only for a message that is accepted, whole and flushed; undisturbed,
     a refusal means that nothing was accepted. `tried` is the id of the attempt, which a failure does not tell:
     it may belong to an accepted message that a worker has taken already.
     */
    method Enqueue(t: Thread, from: string, to: string, raw: string,
                   ghost start: Sys, ghost alone: bool, ghost healthy: bool)
      returns (r: Enqueued, ghost tried: string)
      requires Inv(start) && PcOf(World(), t).Idle? && Reaches(Next, start, World())
      modifies this
      ensures Reaches(Next, start, World()) && PcOf(World(), t).Idle?
      ensures r.Queued? ==> r.id in accepted && accepted[r.id].data == Compose(from, to, raw) && accepted[r.id].durable
      ensures r.Queued? ==> IsMail(accepted[r.id].data, from, to, raw)
      ensures r.Queued? ==> r.id == tried && tried !in old(issued)
      ensures r.WriteFailed? ==> tried !in old(issued) && GivenUpOrLeft(World(), tried, Compose(from, to, raw))
      ensures alone ==> (r.DepthExceeded? <==> |ActiveIds(old(files))| >= 100000)
      ensures alone && r.Queued? ==> accepted.Keys == old(accepted).Keys + {r.id}
      ensures alone && !r.Queued? ==> accepted.Keys == old(accepted).Keys
      ensures alone && healthy ==> !r.WriteFailed?
    {
      hide Inv, Reaches, Next, IsMail, Compose;
      var depth := Depth();
      if depth >= MAX_QUEUE_DEPTH { return DepthExceeded, ""; }
      var content := Compose(from, to, raw);
      var id := BeginMessage(t, content, start, alone);
      tried := id;
      var ok := WriteMessage(t, id, content, start, alone, healthy);
      r := if ok then Queued(id) else WriteFailed;
      ComposedIsMail(from, to, raw);
    }

    /**
     The first loop of fetchReady: every message whose lease ran out goes back to `active`. It throws only if a
     message that it listed vanished from `inflight`, so never while no other thread moves messages there.
     */
    method ReclaimExpired(t: Thread, ghost start: Sys, ghost alone: bool, ghost led: bool, ghost healthy: bool)
      returns (thrown: bool)
      requires Inv(start) && PcOf(World(), t).Idle? && Reaches(Next, start, World())
      modifies this
      ensures PcOf(World(), t).Idle? && Reaches(Next, start, World())
      ensures thrown ==> OneVanished(old(files), files)
      ensures led ==> !thrown
      ensures alone && healthy ==> !thrown && now == old(now) && accepted == old(accepted)
      ensures alone && healthy ==> Reclaimed(old(files), now, files)
    {
      hide Inv, Reaches, Next;
      ghost var first := World();
      var todo := List(Inflight);
      thrown := false;
      while todo != {}
        invariant PcOf(World(), t).Idle? && Reaches(Next, start, World())
        invariant forall id :: id in todo ==> Msg(Inflight, id) in first.files
        invariant led ==> forall id :: id in todo ==> Msg(Inflight, id) in files
        invariant alone && healthy ==> now == first.now && accepted == first.accepted
        invariant alone && healthy ==> forall id ::
                    && (Msg(Active, id) in files <==> Msg(Active, id) in first.files || (id !in todo && Waiting(first.files, now, id)))
                    && (Msg(Inflight, id) in files <==> Msg(Inflight, id) in first.files && !(id !in todo && Waiting(first.files, now, id)))
                    && (Msg(Failure, id) in files <==> Msg(Failure, id) in first.files)
                    && (Msg(PermanentFail, id) in files <==> Msg(PermanentFail, id) in first.files)
      {
        var id :| id in todo;
        todo := todo - {id};
        PlacedOnce(start, first, Inflight, id);
        if Msg(Inflight, id) in files { PlacedOnce(start, World(), Inflight, id); }
        ghost var seen;
        thrown, seen := ReclaimIfExpired(t, id, start, alone, led, healthy);
        if thrown { return; }
      }
    }

    /**
     One round: reading the write time of a file that is gone throws. `seen` is the state of that test, which
     the other threads made of the state at the call; the test throws exactly if the message was gone then.
     */
    method ReclaimIfExpired(t: Thread, id: string, ghost start: Sys, ghost alone: bool, ghost led: bool, ghost healthy: bool)
      returns (thrown: bool, ghost seen: Sys)
      requires Inv(start) && PcOf(World(), t).Idle? && Reaches(Next, start, World())
      modifies this
      ensures PcOf(World(), t).Idle? && Reaches(Next, start, World())
      ensures Reaches(OtherNext(t), old(World()), seen)
      ensures thrown <==> Msg(Inflight, id) !in seen.files
      ensures thrown ==> World() == seen
      ensures led ==> (thrown <==> Msg(Inflight, id) !in old(files))
      ensures led ==> forall x :: x != id ==> (Msg(Inflight, x) in files <==> Msg(Inflight, x) in old(files))
      ensures alone && healthy ==> now == old(now) && accepted == old(accepted)
      ensures alone && healthy ==> thrown == (Msg(Inflight, id) !in old(files))
      ensures alone && healthy && !thrown ==>
                files == if Expired(old(files)[Msg(Inflight, id)], now)
                         then Renamed(old(files), Msg(Inflight, id), Msg(Active, id)) else old(files)
    {
      hide Inv, Reaches, Next, OtherNext;
      ghost var s := World();
      Yield(t, alone, led);
      seen := World();
      Waited(start, t, s, seen);
      var src := Msg(Inflight, id);
      thrown := src !in files;  // last_write_time of a file that is gone throws
      if !thrown && Expired(files[src], now) {
        pcs := pcs[t := Reclaiming(id)];
        Took(start, t, SeeExpired(id), seen, World());
        s := World();
        Yield(t, alone, led);
        Waited(start, t, s, World());
        s := World();
        var ok := TryRename(src, Msg(Active, id), healthy);
        pcs := pcs[t := Idle];
        Took(start, t, Reclaim(ok), s, World());
      }
    }

    /** The leasing part of one round: test the target, rename, test again. */
    method TakeLease(t: Thread, id: string, ghost start: Sys, ghost alone: bool, ghost healthy: bool)
      returns (ok: bool)
      requires Inv(start) && PcOf(World(), t).Idle? && Reaches(Next, start, World())
      modifies this
      ensures Reaches(Next, start, World())
      ensures PcOf(World(), t) == if ok then Leased(id) else Idle
      ensures alone && healthy ==> now == old(now) && accepted == old(accepted)
      ensures alone && healthy && Msg(Active, id) in old(files) ==>
                ok && files == Renamed(old(files), Msg(Active, id), Msg(Inflight, id))
    {
      hide Inv, Reaches, Next;
      if Msg(Active, id) in files { PlacedOnce(start, World(), Active, id); }
      Pause(t, start, alone);
      if Msg(Inflight, id) in files { return false; }
      ghost var s := World();
      pcs := pcs[t := Leasing(id)];
      Took(start, t, See(id), s, World());
      Pause(t, start, alone);
      s := World();
      ok := TryRename(Msg(Active, id), Msg(Inflight, id), healthy);
      pcs := pcs[t := if ok then Leased(id) else Idle];
      Took(start, t, Lease(ok), s, World());
      if !ok { return; }
      Pause(t, start, alone);
      if Msg(Inflight, id) !in files {
        s := World();
        pcs := pcs[t := Idle];
        Took(start, t, LoseLease, s, World());
        ok := false;
      }
    }

    /** A leased message that cannot be opened goes back to `active`. */
    method GiveBack(t: Thread, id: string, ghost start: Sys, ghost alone: bool, ghost healthy: bool)
      requires Inv(start) && PcOf(World(), t) == Leased(id) && Reaches(Next, start, World())
      modifies this
      ensures Reaches(Next, start, World()) && PcOf(World(), t).Idle?
      ensures alone ==> now == old(now) && accepted == old(accepted)
      ensures alone && healthy && Msg(Inflight, id) in old(files) ==>
                files == Renamed(old(files), Msg(Inflight, id), Msg(Active, id))
    {
      hide Inv, Reaches, Next;
      ghost var s := World();
      pcs := pcs[t := Unreadable(id)];
      Took(start, t, ReadFails, s, World());
      Pause(t, start, alone);
      s := World();
      var ok := TryRename(Msg(Inflight, id), Msg(Active, id), healthy);
      pcs := pcs[t := Idle];
      Took(start, t, PutBack(ok), s, World());
    }

    /** The reading part of one round: an empty message goes to `permanent_fail`. */
    method ReadLeased(t: Thread, id: string, ghost start: Sys, ghost alone: bool, ghost healthy: bool)
      returns (leased: bool, raw: string)
      requires Inv(start) && PcOf(World(), t) == Leased(id) && Reaches(Next, start, World())
      modifies this
      ensures Reaches(Next, start, World())
      ensures PcOf(World(), t) == if leased then Delivering(id, raw) else Idle
      ensures alone && healthy ==> now == old(now) && accepted == old(accepted)
      ensures alone && healthy && Msg(Inflight, id) in old(files) ==>
                && raw == old(files)[Msg(Inflight, id)].data
                && leased == (raw != "")
                && files == if leased then old(files) else Renamed(old(files), Msg(Inflight, id), Msg(PermanentFail, id))
    {
      leased, raw := false, "";
      Pause(t, start, alone);
      var readable := Opens(Msg(Inflight, id), healthy);
      if !readable {
        GiveBack(t, id, start, alone, healthy);
        return;
      }
      raw := files[Msg(Inflight, id)].data;
      leased := raw != "";
      ghost var s := World();
      pcs := pcs[t := if leased then Delivering(id, raw) else Emptied(id)];
      Took(start, t, Read, s, World());
      if !leased {
        BuryEmpty(t, id, start, alone, healthy);
      }
    }

    /** A leased message without content goes to `permanent_fail`. */
    method BuryEmpty(t: Thread, id: string, ghost start: Sys, ghost alone: bool, ghost healthy: bool)
      requires Inv(start) && PcOf(World(), t) == Emptied(id) && Reaches(Next, start, World())
      modifies this
      ensures Reaches(Next, start, World()) && PcOf(World(), t).Idle?
      ensures alone ==> now == old(now) && accepted == old(accepted)
      ensures alone && healthy && Msg(Inflight, id) in old(files) ==>
                files == Renamed(old(files), Msg(Inflight, id), Msg(PermanentFail, id))
    {
      Pause(t, start, alone);
      ghost var s := World();
      var ok := TryRename(Msg(Inflight, id), Msg(PermanentFail, id), healthy);
      pcs := pcs[t := Idle];
      Took(start, t, Bury(ok), s, World());
    }

    /** Opening a file for reading: impossible when it is gone, and may fail for other reasons. */
    method Opens(p: Path, ghost healthy: bool) returns (ok: bool)
      ensures ok ==> p in files
      ensures healthy && p in files ==> ok
    {
      ok := p in files;
    }

    /** One round of the second loop of fetchReady. */
    method LeaseOne(t: Thread, id: string, ghost start: Sys, ghost alone: bool, ghost healthy: bool)
      returns (leased: bool, raw: string)
      requires Inv(start) && PcOf(World(), t).Idle? && Reaches(Next, start, World())
      modifies this
      ensures Reaches(Next, start, World())
      ensures PcOf(World(), t) == if leased then Delivering(id, raw) else Idle
      ensures alone && healthy ==> now == old(now) && accepted == old(accepted)
      ensures alone && healthy && Msg(Active, id) in old(files) ==>
                && id in accepted && raw == accepted[id].data && leased == (raw != "")
                && OneMoved(old(files), id, if leased then Inflight else PermanentFail, files)
    {
      leased, raw := false, "";
      if Msg(Active, id) in files { PlacedOnce(start, World(), Active, id); }
      var ok := TakeLease(t, id, start, alone, healthy);
      if ok {
        leased, raw := ReadLeased(t, id, start, alone, healthy);
      }
    }

    /** The second loop of fetchReady. */
    method LeaseFirst(t: Thread, ghost start: Sys, ghost fs: Files, ghost alone: bool, ghost healthy: bool)
      returns (r: Fetch)
      requires Inv(start) && PcOf(World(), t).Idle? && Reaches(Next, start, World())
      requires alone && healthy ==> Reclaimed(fs, now, files)
      modifies this
      ensures Reaches(Next, start, World()) && Holds(World(), t, r) && !r.Thrown?
      ensures alone && healthy ==> now == old(now) && accepted == old(accepted) && Fetched(fs, now, accepted, r, files)
    {
      hide Inv, Reaches, Next;
      var todo := List(Active);
      while todo != {}
        invariant PcOf(World(), t).Idle? && Reaches(Next, start, World())
        invariant alone && healthy ==> now == old(now) && accepted == old(accepted)
        invariant alone && healthy ==> Sifted(fs, now, accepted, todo, files)
      {
        var id :| id in todo;
        ghost var before := files;
        var leased, raw := LeaseOne(t, id, start, alone, healthy);
        if alone && healthy { SiftOne(fs, now, accepted, todo, before, id, leased, raw, files); }
        if leased {
          var from := ReadField(raw, FROM_TAG);
          var to := ReadField(raw, TO_TAG);
          return Ready(QueueMessage(id, from, to, raw));
        }
        todo := todo - {id};
      }
      r := Nothing;
    }

    /**
     fetchReady: afterwards the thread holds the returned message, read back whole. It throws only
     if a message vanishes from `inflight` while the first loop looks at it. Undisturbed, it
     returns nothing only if no message with content was waiting, and otherwise moves one waiting
     message to `inflight`, leaves every other one in `active` unless it is empty, and touches no
     message whose lease still runs.
     */
    method FetchReady(t: Thread, ghost start: Sys, ghost alone: bool, ghost led: bool, ghost healthy: bool) returns (r: Fetch)
      requires Inv(start) && PcOf(World(), t).Idle? && Reaches(Next, start, World())
      modifies this
      ensures Reaches(Next, start, World()) && Holds(World(), t, r)
      ensures r.Thrown? ==> OneVanished(old(files), files)
      ensures led ==> !r.Thrown?
      ensures alone && healthy ==> !r.Thrown? && now == old(now) && accepted == old(accepted)
      ensures alone && healthy ==> Fetched(old(files), now, accepted, r, files)
    {
      ghost var first := files;
      var thrown := ReclaimExpired(t, start, alone, led, healthy);
      if thrown { return Thrown; }
      r := LeaseFirst(t, start, first, alone, healthy);
    }

    /** The removal of markSuccess. */
    method RemoveDelivered(t: Thread, id: string, ghost start: Sys, ghost alone: bool)
      requires Inv(start) && PcOf(World(), t) == Removing(id) && Reaches(Next, start, World())
      modifies this
      ensures Reaches(Next, start, World()) && PcOf(World(), t).Idle? && Grown(old(World()), World())
      ensures LeaseRuns(World(), id) ==> !Present(files, id)
    {
      Pause(t, start, alone);
      RemovalLeavesNothing(start, World(), t);
      ghost var s := World();
      files := Removed(files, Msg(Inflight, id));
      pcs := pcs[t := Idle];
      Took(start, t, Remove, s, World());
    }

    /** markSuccess: the existence test and the removal are two operations. */
    method MarkSuccess(t: Thread, id: string, ghost start: Sys, ghost alone: bool)
      requires Inv(start) && PcOf(World(), t) == Confirming(id) && Reaches(Next, start, World())
      modifies this
      ensures Reaches(Next, start, World()) && PcOf(World(), t).Idle? && Grown(old(World()), World())
      ensures LeaseRuns(World(), id) ==> !Present(files, id)
    {
      Pause(t, start, alone);
      HeldInPlace(start, World(), t);
      ghost var s := World();
      var there := Msg(Inflight, id) in files;
      pcs := pcs[t := if there then Removing(id) else Idle];
      Took(start, t, Confirm, s, World());
      if there {
        RemoveDelivered(t, id, start, alone);
      }
    }

    /** markTempFail and markPermFail: one rename, whose failure is ignored. */
    method MarkFailed(t: Thread, id: string, permanently: bool, ghost start: Sys, ghost alone: bool, ghost healthy: bool)
      requires Inv(start) && PcOf(World(), t) == Refused(id, permanently) && Reaches(Next, start, World())
      modifies this
      ensures Reaches(Next, start, World()) && PcOf(World(), t).Idle? && Grown(old(World()), World())
      ensures healthy && LeaseRuns(World(), id) ==> Msg(if permanently then PermanentFail else Failure, id) in files
    {
      Pause(t, start, alone);
      HeldInPlace(start, World(), t);
      ghost var s := World();
      var ok := TryRename(Msg(Inflight, id), Msg(if permanently then PermanentFail else Failure, id), healthy);
      pcs := pcs[t := Idle];
      Took(start, t, Shelve(ok), s, World());
    }

    /** The delivery attempt and the mark that records its answer. */
    method DeliverAndMark(t: Thread, id: string, raw: string, outcome: Outcome,
                          ghost start: Sys, ghost alone: bool, ghost healthy: bool)
      requires Inv(start) && PcOf(World(), t) == Delivering(id, raw) && Reaches(Next, start, World())
      modifies this
      ensures Reaches(Next, start, World()) && PcOf(World(), t).Idle? && Grown(old(World()), World())
      ensures Marked(World(), id, raw, outcome, healthy)
    {
      Pause(t, start, alone);
      ghost var s := World();
      match outcome {
        case Success =>
          delivered := delivered + {Delivery(id, raw)};
          pcs := pcs[t := Confirming(id)];
          Took(start, t, Deliver(outcome), s, World());
          MarkSuccess(t, id, start, alone);
        case PermanentFailure =>
          pcs := pcs[t := Refused(id, true)];
          Took(start, t, Deliver(outcome), s, World());
          MarkFailed(t, id, true, start, alone, healthy);
        case TemporaryFailure =>
          pcs := pcs[t := Refused(id, false)];
          Took(start, t, Deliver(outcome), s, World());
          MarkFailed(t, id, false, start, alone, healthy);
      }
    }

    /**
     runOnce: one message is fetched, handed to the remote side and marked by its answer. While the
     lease runs the mark takes effect: a delivered message is gone, a refused one is shelved.
     */
    method RunOnce(t: Thread, outcome: Outcome, ghost start: Sys, ghost alone: bool, ghost led: bool, ghost healthy: bool)
      returns (report: Report)
      requires Inv(start) && PcOf(World(), t).Idle? && Reaches(Next, start, World())
      modifies this
      ensures Reaches(Next, start, World()) && PcOf(World(), t).Idle?
      ensures report.Handled? ==>
                && report.msg.id in accepted && report.msg.rawData == accepted[report.msg.id].data
                && (var from := Field(report.msg.rawData, "FROM: "); report.from == if from == "" then "unknown@localhost" else from)
                && (var to := Field(report.msg.rawData, "TO: "); report.to == if to == "" then "unknown@localhost" else to)
                && Marked(World(), report.msg.id, report.msg.rawData, outcome, healthy)
      ensures report.Died? ==> OneVanished(old(files), files)
      ensures led || (alone && healthy) ==> !report.Died?
    {
      var r := FetchReady(t, start, alone, led, healthy);
      if r.Thrown? { return Died; }
      if r.Nothing? { return NoMessage; }
      HeldInPlace(start, World(), t);
      if r.msg.rawData == "" { assert false; }
      report := Handled(r.msg, OrUnknown(r.msg.from), OrUnknown(r.msg.to));
      DeliverAndMark(t, r.msg.id, r.msg.rawData, outcome, start, alone, healthy);
    }
  }

  // ------------------------------------------------------------------ from enqueue to the remote side

  /**
   End to end: what the remote side ever takes under an id tells its reader the sender, recipient and raw mail
   that the text accepted under that id told.
   */
  lemma DeliveredIsMail(run: seq<Sys>, i: nat, j: nat, d: Delivery, from: string, to: string, raw: string)
    requires IsRun(Next, run) && Init(run[0]) && i <= j < |run|
    requires d.id in run[i].accepted && IsMail(run[i].accepted[d.id].data, from, to, raw) && d in run[j].delivered
    ensures IsMail(d.content, from, to, raw)
  {
    AcceptedKept(run, i, j, d.id);
    DeliveriesAreEnqueued(run, j, d);
  }

  // ------------------------------------------------------------------ messages that vanish

  lemma OthersProceed(t: Thread, s0: Sys, s: Sys, u: Thread, a: Action)
    requires Reaches(OtherNext(t), s0, s) && u != t && !a.PowerLoss? && Enabled(s, u, a)
    ensures Reaches(OtherNext(t), s0, Effect(s, u, a))
  {
    assert OtherNext(t)(s, Effect(s, u, a));
    Extends(OtherNext(t), s0, s, Effect(s, u, a));
  }

  /**
   Without leader election the lease test does throw, and not because a lease ran out: for every message there
   is a state in which an idle worker finds it in `inflight` under a running lease, and the worker that holds it
   delivers and removes it before the test.
   */
  lemma ListedMayVanish(s0: Sys, id: string, c: string)
    requires Init(s0) && c != ""
    ensures exists s, s' :: && Reaches(Next, s0, s) && PcOf(s, 2).Idle? && Msg(Inflight, id) in s.files && LeaseRuns(s, id)
                            && Reaches(OtherNext(2), s, s') && Msg(Inflight, id) !in s'.files
  {
    hide Reaches, Next, OtherNext;
    var f := File(c, true, s0.now);
    var queued := AcceptedByWriter(s0, id, c);
    var s := LeasedByWorker(s0, queued, 1, id, f);
    Stays(OtherNext(2), s);
    OthersProceed(2, s, s, 1, Deliver(Success));
    var s1 := Effect(s, 1, Deliver(Success));
    OthersProceed(2, s, s1, 1, Confirm);
    var s2 := Effect(s1, 1, Confirm);
    OthersProceed(2, s, s2, 1, Remove);
    var s3 := Effect(s2, 1, Remove);
    assert Msg(Inflight, id) !in s3.files;
  }

  function OrUnknown(address: string): string {
    if address == "" then "unknown@localhost" else address
  }

  ghost predicate Grown(s: Sys, s': Sys) {
    && s.delivered <= s'.delivered && s.issued <= s'.issued && s.now <= s'.now
    && forall id :: id in s.accepted ==> id in s'.accepted && s'.accepted[id] == s.accepted[id]
  }

  lemma HeldInPlace(start: Sys, s: Sys, t: Thread)
    requires Inv(start) && Reaches(Next, start, s) && Holding(PcOf(s, t))
    ensures PcOf(s, t).id in s.accepted
    ensures PcOf(s, t).Delivering? ==> PcOf(s, t).content == s.accepted[PcOf(s, t).id].data && PcOf(s, t).content != ""
    ensures LeaseRuns(s, PcOf(s, t).id) ==> Msg(Inflight, PcOf(s, t).id) in s.files
  {
    ReachedInv(start, s);
    assert HolderKnows(s, t) && LeaseInPlace(s, t);
  }

  lemma RemovalLeavesNothing(start: Sys, s: Sys, t: Thread)
    requires Inv(start) && Reaches(Next, start, s) && PcOf(s, t).Removing?
    ensures var id := PcOf(s, t).id;
            LeaseRuns(s, id) ==> !Present(Removed(s.files, Msg(Inflight, id)), id)
  {
    ReachedInv(start, s);
    assert LeaseInPlace(s, t);
  }

  /** What the mark made of a message a worker handled. */
  ghost predicate Marked(s: Sys, id: string, raw: string, outcome: Outcome, healthy: bool) {
    && (outcome.Success? ==> Delivery(id, raw) in s.delivered)
    && (outcome.Success? && LeaseRuns(s, id) ==> !Present(s.files, id))
    && (outcome.TemporaryFailure? && healthy && LeaseRuns(s, id) ==> Msg(Failure, id) in s.files)
    && (outcome.PermanentFailure? && healthy && LeaseRuns(s, id) ==> Msg(PermanentFail, id) in s.files)
  }

  /** The thread holds what fetchReady returned to it, with the addresses read from its text. */
  ghost predicate Holds(s: Sys, t: Thread, r: Fetch) {
    if r.Ready? then
      && PcOf(s, t) == Delivering(r.msg.id, r.msg.rawData)
      && r.msg.from == Field(r.msg.rawData, FROM_TAG) && r.msg.to == Field(r.msg.rawData, TO_TAG)
    else PcOf(s, t).Idle?
  }

  /** After the first loop `active` has exactly the waiting messages. */
  ghost predicate Reclaimed(fs: Files, now: nat, fs': Files) {
    forall id ::
      && (Msg(Active, id) in fs' <==> Waiting(fs, now, id))
      && (Msg(Inflight, id) in fs' <==> Msg(Inflight, id) in fs && !Waiting(fs, now, id))
      && (Msg(Failure, id) in fs' <==> Msg(Failure, id) in fs)
      && (Msg(PermanentFail, id) in fs' <==> Msg(PermanentFail, id) in fs)
  }

  /** `id` moved from `active` to `f`; every other file is where it was. */
  ghost predicate OneMoved(fs: Files, id: string, f: Folder, fs': Files) {
    forall g, x :: Msg(g, x) in fs' <==> (x == id && g == f) || (Msg(g, x) in fs && !(x == id && g == Active))
  }

  /** Halfway through the second loop: the messages still to try are in `active`, the ones tried were empty. */
  ghost predicate Sifted(fs: Files, now: nat, accepted: map<string, File>, todo: set<string>, fs': Files) {
    forall id ::
      && (id in todo ==> Waiting(fs, now, id))
      && (Msg(Active, id) in fs' <==> id in todo)
      && (Msg(Inflight, id) in fs' <==> Msg(Inflight, id) in fs && !Waiting(fs, now, id))
      && (Msg(Failure, id) in fs' <==> Msg(Failure, id) in fs)
      && (Msg(PermanentFail, id) in fs' <==> Msg(PermanentFail, id) in fs || (Waiting(fs, now, id) && id !in todo))
      && (Waiting(fs, now, id) && id !in todo ==> id in accepted && accepted[id].data == "")
  }

  /** What an undisturbed fetchReady returns and where it leaves every message. */
  ghost predicate Fetched(fs: Files, now: nat, accepted: map<string, File>, r: Fetch, fs': Files) {
    && (r.Ready? ==> Waiting(fs, now, r.msg.id) && r.msg.rawData != "" && Msg(Inflight, r.msg.id) in fs')
    && (r.Nothing? ==> forall id :: Waiting(fs, now, id) ==> id in accepted && accepted[id].data == "")
    && forall id :: Placed(fs, now, accepted, r, fs', id)
  }

  ghost predicate Placed(fs: Files, now: nat, accepted: map<string, File>, r: Fetch, fs': Files, id: string) {
    && (Msg(Failure, id) in fs' <==> Msg(Failure, id) in fs)
    && (!Waiting(fs, now, id) ==> && (Msg(Inflight, id) in fs' <==> Msg(Inflight, id) in fs)
                                  && (Msg(PermanentFail, id) in fs' <==> Msg(PermanentFail, id) in fs)
                                  && Msg(Active, id) !in fs')
    && (Waiting(fs, now, id) && !(r.Ready? && r.msg.id == id) ==>
         Msg(Active, id) in fs' || (Msg(PermanentFail, id) in fs' && id in accepted && accepted[id].data == ""))
  }

  lemma SiftOne(fs: Files, now: nat, accepted: map<string, File>, todo: set<string>, fs1: Files,
                id: string, leased: bool, raw: string, fs2: Files)
    requires Sifted(fs, now, accepted, todo, fs1) && id in todo
    requires id in accepted && raw == accepted[id].data && leased == (raw != "")
    requires OneMoved(fs1, id, if leased then Inflight else PermanentFail, fs2)
    ensures !leased ==> Sifted(fs, now, accepted, todo - {id}, fs2)
    ensures leased ==> forall from, to :: Fetched(fs, now, accepted, Ready(QueueMessage(id, from, to, raw)), fs2)
  {
    assert Waiting(fs, now, id);
  }
}
