/**
 Leader election over an exclusive lock file, and the controller that runs the queue worker only
 while its node leads. Nodes are processes on any machine that sees the lock file; a node that dies
 loses the lock.
 */
module Leadership {
  import opened Options
  import opened Runs

  type NodeId = nat

  /** The controller thread: not there, at the loop test, about to try, inside runOnce, asleep. */
  datatype Loop = Absent | Top | Trying | Working | Resting

  /**
   One node. `elected` is `LeaderElection::leader_` and `flag` is `HaController::leader_`; `stopping`
   says that `stop` waits for the thread, and `tried` is history: the thread has tried to become leader
   since the last start, and the stop behind it has not ended.
   */
  datatype Node = Node(running: bool, stopping: bool, loop: Loop, elected: bool, flag: bool, tried: bool)

  const NEW_NODE := Node(false, false, Absent, false, false, false)

  datatype Ha = Ha(lock: Option<NodeId>, nodes: map<NodeId, Node>)

  function NodeOf(s: Ha, n: NodeId): Node {
    if n in s.nodes then s.nodes[n] else NEW_NODE
  }

  datatype HaAction = Start | Test | Try(granted: bool) | FinishWork | Wake | Stop | Release | Crash

  ghost predicate HaEnabled(s: Ha, n: NodeId, a: HaAction) {
    var d := NodeOf(s, n);
    match a
    case Start => !d.running && !d.stopping && d.loop.Absent?
    case Test => d.loop.Top?
    case Try(granted) => d.loop.Trying? && (granted ==> d.elected || s.lock.None?)
    case FinishWork => d.loop.Working?
    case Wake => d.loop.Resting?
    case Stop => d.running && !d.stopping
    case Release => d.stopping && d.loop.Absent?
    case Crash => true
  }

  /** tryBecomeLeader: a leader stays one; otherwise the lock file is opened without sharing. */
  function Elected(lock: Option<NodeId>, elected: bool, granted: bool): bool {
    elected || (lock.None? && granted)
  }

  function HaEffect(s: Ha, n: NodeId, a: HaAction): Ha {
    var d := NodeOf(s, n);
    match a
    case Start => Put(s, n, d.(running := true, loop := Top))
    case Test => Put(s, n, d.(loop := if d.running then Trying else Absent))
    case Try(granted) =>
      var e := Elected(s.lock, d.elected, granted);
      Put(s, n, d.(elected := e, flag := e, tried := true, loop := if e then Working else Resting)).(lock := if e then Some(n) else s.lock)
    case FinishWork => Put(s, n, d.(loop := Resting))
    case Wake => Put(s, n, d.(loop := Top))
    case Stop => Put(s, n, d.(running := false, stopping := true))
    case Release => Put(s, n, d.(stopping := false, elected := false, tried := false)).(lock := if d.elected then None else s.lock)
    case Crash => Put(s, n, NEW_NODE).(lock := if s.lock == Some(n) then None else s.lock)
  }

  function Put(s: Ha, n: NodeId, d: Node): Ha {
    s.(nodes := s.nodes[n := d])
  }

  ghost predicate HaNext(s: Ha, s': Ha) {
    exists n, a :: HaEnabled(s, n, a) && s' == HaEffect(s, n, a)
  }

  ghost predicate HaInit(s: Ha) {
    s.lock.None? && s.nodes == map[]
  }

  /** What holds of every node at any time. */
  ghost predicate NodeSound(s: Ha, n: NodeId) {
    var d := NodeOf(s, n);
    && (d.elected <==> s.lock == Some(n))
    && (d.loop.Working? ==> d.elected)
    && (d.loop.Working? || d.loop.Resting? ==> d.tried)
    && (d.tried ==> d.flag == d.elected)
    && (!d.tried ==> !d.elected)
    && (d.stopping ==> !d.running)
    && (d.running ==> !d.loop.Absent?)
    && (!d.running && !d.stopping ==> d.loop.Absent? && !d.tried)
  }

  /** The lock file is open in exactly the node that believes so, and only that node works. */
  ghost predicate HaInv(s: Ha) {
    forall n: NodeId {:trigger NodeOf(s, n)} :: NodeSound(s, n)
  }

  lemma OtherNodesStand(s: Ha, n: NodeId, a: HaAction, m: NodeId)
    requires m != n
    ensures NodeOf(HaEffect(s, n, a), m) == NodeOf(s, m)
  {
  }

  lemma HaStepKeepsInv(s: Ha, n: NodeId, a: HaAction)
    requires HaInv(s) && HaEnabled(s, n, a)
    ensures HaInv(HaEffect(s, n, a))
  {
    var s' := HaEffect(s, n, a);
    assert NodeOf(s', n) == s'.nodes[n] && NodeSound(s, n);
    forall m: NodeId ensures NodeSound(s', m) {
      if m != n {
        OtherNodesStand(s, n, a, m);
        assert NodeSound(s, m);
      }
    }
  }

  lemma HaInitInv(s: Ha)
    requires HaInit(s)
    ensures HaInv(s)
  {
    forall n: NodeId ensures NodeSound(s, n) {
      assert NodeOf(s, n) == NEW_NODE;
    }
  }

  lemma HaReachableInv(run: seq<Ha>, i: nat)
    requires IsRun(HaNext, run) && HaInit(run[0]) && i < |run|
    ensures HaInv(run[i])
  {
    forall s, s' | HaInv(s) && HaNext(s, s') ensures HaInv(s') {
      var n: NodeId, a :| HaEnabled(s, n, a) && s' == HaEffect(s, n, a);
      HaStepKeepsInv(s, n, a);
    }
    HaInitInv(run[0]);
    Always(HaNext, HaInv, run, i);
  }

  /**
   In every state of every run at most one node is inside runOnce, it is the one that holds the
   lock, and its controller reports it as leader.
   */
  lemma OneWorker(run: seq<Ha>, i: nat, n: NodeId, m: NodeId)
    requires IsRun(HaNext, run) && HaInit(run[0]) && i < |run|
    requires NodeOf(run[i], n).loop.Working?
    ensures run[i].lock == Some(n) && NodeOf(run[i], n).flag
    ensures NodeOf(run[i], m).loop.Working? || NodeOf(run[i], m).elected ==> m == n
  {
    HaReachableInv(run, i);
    assert NodeOf(run[i], m).elected <==> run[i].lock == Some(m);
  }

  lemma EndsByStep(s: Ha, n: NodeId, a: HaAction, m: NodeId)
    requires HaInv(s) && HaEnabled(s, n, a) && NodeOf(s, m).elected && !NodeOf(HaEffect(s, n, a), m).elected
    ensures n == m && ((a.Release? && NodeOf(s, m).loop.Absent? && !NodeOf(s, m).running) || a.Crash?)
  {
    if n != m { OtherNodesStand(s, n, a, m); }
    assert NodeOf(s, m).stopping ==> !NodeOf(s, m).running;
  }

  /** A release by a node whose thread has ended, or the death of the node. */
  ghost predicate EndOf(s: Ha, s': Ha, m: NodeId) {
    || (s' == HaEffect(s, m, Release) && NodeOf(s, m).loop.Absent? && !NodeOf(s, m).running)
    || s' == HaEffect(s, m, Crash)
  }

  /** A node that led and does not lead any more was stopped and its thread had ended, or it died. */
  lemma {:induction false} LeadershipEndsByReleaseOrCrash(run: seq<Ha>, i: nat, j: nat, m: NodeId)
    requires IsRun(HaNext, run) && HaInit(run[0]) && i <= j < |run|
    requires NodeOf(run[i], m).elected && !NodeOf(run[j], m).elected
    ensures exists k: nat :: i < k <= j && EndOf(run[k - 1], run[k], m)
  {
    if NodeOf(run[j - 1], m).elected {
      HaReachableInv(run, j - 1);
      assert HaNext(run[j - 1], run[j]);
      var n: NodeId, a :| HaEnabled(run[j - 1], n, a) && run[j] == HaEffect(run[j - 1], n, a);
      EndsByStep(run[j - 1], n, a, m);
      assert EndOf(run[j - 1], run[j], m);
    } else {
      LeadershipEndsByReleaseOrCrash(run, i, j - 1, m);
    }
  }

  /** `HaController::isLeader` is not the lock: after a stop it still answers yes. */
  lemma FlagOutlivesStop(n: NodeId)
    ensures exists s0, s :: HaInit(s0) && Reaches(HaNext, s0, s) && NodeOf(s, n).flag && !NodeOf(s, n).elected && s.lock.None?
  {
    var s0 := Ha(None, map[]);
    Stays(HaNext, s0);
    var s1 := HaProceeds(s0, s0, n, Start);
    var s2 := HaProceeds(s0, s1, n, Test);
    var s3 := HaProceeds(s0, s2, n, Try(true));
    var s4 := HaProceeds(s0, s3, n, FinishWork);
    var s5 := HaProceeds(s0, s4, n, Wake);
    var s6 := HaProceeds(s0, s5, n, Stop);
    var s7 := HaProceeds(s0, s6, n, Test);
    var s8 := HaProceeds(s0, s7, n, Release);
    assert HaInit(s0) && NodeOf(s8, n).flag && !NodeOf(s8, n).elected;
  }

  /**
   What the flag is worth, in every state of every run. Of a node that leads it always says so. It is right
   exactly while the thread has tried since the last start, or else when it says no; so it is right whenever a
   round has been decided, and for a stopped controller exactly when it says no.
   */
  lemma FlagIsRight(run: seq<Ha>, i: nat, n: NodeId)
    requires IsRun(HaNext, run) && HaInit(run[0]) && i < |run|
    ensures var d := NodeOf(run[i], n);
            && (run[i].lock == Some(n) ==> d.flag)
            && ((d.flag <==> run[i].lock == Some(n)) <==> d.tried || !d.flag)
            && (d.loop.Working? || d.loop.Resting? ==> (d.flag <==> run[i].lock == Some(n)))
            && (!d.running && !d.stopping ==> ((d.flag <==> run[i].lock == Some(n)) <==> !d.flag))
  {
    HaReachableInv(run, i);
    assert NodeSound(run[i], n);
  }

  lemma HaProceeds(s0: Ha, s: Ha, n: NodeId, a: HaAction) returns (s': Ha)
    requires Reaches(HaNext, s0, s) && HaEnabled(s, n, a)
    ensures s' == HaEffect(s, n, a) && Reaches(HaNext, s0, s')
  {
    s' := HaEffect(s, n, a);
    assert HaNext(s, s');
    Extends(HaNext, s0, s, s');
  }

  // ------------------------------------------------------------------ the objects

  /** The lock file: who has it open without sharing. */
  class LockFile {
    var holder: Option<NodeId>

    constructor ()
      ensures holder == None
    {
      holder := None;
    }
  }

  class LeaderElection {
    const lock: LockFile
    const me: NodeId
    var leader: bool

    ghost predicate Valid()
      reads this, lock
    {
      leader <==> lock.holder == Some(me)
    }

    constructor (lock: LockFile, me: NodeId)
      requires lock.holder != Some(me)
      ensures this.lock == lock && this.me == me && !leader && Valid()
    {
      this.lock := lock;
      this.me := me;
      leader := false;
    }

    /** `granted` is the operating system's answer when nobody has the file open. */
    method TryBecomeLeader(granted: bool) returns (ok: bool)
      requires Valid()
      modifies this, lock
      ensures Valid()
      ensures ok == leader == Elected(old(lock.holder), old(leader), granted)
      ensures lock.holder == if ok then Some(me) else old(lock.holder)
    {
      if leader { return true; }
      if lock.holder.Some? || !granted { return false; }
      lock.holder := Some(me);
      leader := true;
      return true;
    }

    method ReleaseLeadership()
      requires Valid()
      modifies this, lock
      ensures Valid() && !leader
      ensures lock.holder == if old(leader) then None else old(lock.holder)
    {
      if !leader { return; }
      lock.holder := None;
      leader := false;
    }
  }

  class HaController {
    const election: LeaderElection
    var running: bool
    var leader: bool
    var loop: Loop
    var stopping: bool
    ghost var tried: bool

    ghost predicate Valid()
      reads this, election, election.lock
    {
      election.Valid()
    }

    /** This node as the protocol sees it. */
    ghost function View(): Node
      reads this, election
    {
      Node(running, stopping, loop, election.leader, leader, tried)
    }

    constructor (lock: LockFile, me: NodeId)
      requires lock.holder != Some(me)
      ensures Valid() && View() == NEW_NODE && election.lock == lock && election.me == me
      ensures fresh(election)
    {
      election := new LeaderElection(lock, me);
      running, leader, loop, stopping, tried := false, false, Absent, false, false;
    }

    method Start()
      requires Valid() && !stopping && (!running ==> loop.Absent?)
      modifies this
      ensures Valid()
      ensures View() == if old(running) then old(View()) else old(View()).(running := true, loop := Top)
    {
      if running { return; }
      running := true;
      loop := Top;
    }

    /** One round of run: the loop test, the try, and runOnce only for a leader. */
    method Round(granted: bool) returns (worked: bool)
      requires Valid() && loop.Top?
      modifies this, election, election.lock
      ensures Valid()
      ensures worked == (old(running) && Elected(old(election.lock.holder), old(election.leader), granted))
      ensures worked ==> election.lock.holder == Some(election.me) && View() == old(View()).(loop := Working, flag := true, elected := true, tried := true)
      ensures !worked && old(running) ==> election.lock.holder == old(election.lock.holder)
                                          && View() == old(View()).(loop := Resting, flag := false, tried := true)
      ensures !old(running) ==> election.lock.holder == old(election.lock.holder) && View() == old(View()).(loop := Absent)
    {
      worked := false;
      if !running {
        loop := Absent;
        return;
      }
      var ok := election.TryBecomeLeader(granted);
      tried := true;
      if ok {
        leader := true;
        loop := Working;
        worked := true;
      } else {
        leader := false;
        loop := Resting;
      }
    }

    /** stop up to the join ... */
    method BeginStop()
      requires Valid() && !stopping
      modifies this
      ensures Valid()
      ensures View() == if old(running) then old(View()).(running := false, stopping := true) else old(View())
    {
      if !running { return; }
      running := false;
      stopping := true;
    }

    /** ... and after it: the thread has ended before the lock is given up. */
    method EndStop()
      requires Valid() && stopping && loop.Absent?
      modifies this, election, election.lock
      ensures Valid() && View() == old(View()).(stopping := false, elected := false, tried := false)
      ensures election.lock.holder == if old(election.leader) then None else old(election.lock.holder)
    {
      election.ReleaseLeadership();
      stopping := false;
      tried := false;
    }
  }

  /** A round of the controller is the protocol's test followed, while running, by its try. */
  lemma RoundRefines(s: Ha, n: NodeId, granted: bool)
    requires HaInv(s) && NodeOf(s, n).loop.Top?
    ensures
      var d := NodeOf(s, n);
      var s1 := HaEffect(s, n, Test);
      var e := Elected(s.lock, d.elected, granted);
      && HaEnabled(s, n, Test)
      && (!d.running ==> NodeOf(s1, n) == d.(loop := Absent) && s1.lock == s.lock)
      && (d.running ==>
           exists g :: && HaEnabled(s1, n, Try(g))
                       && HaEffect(s1, n, Try(g)).lock == (if e then Some(n) else s.lock)
                       && NodeOf(HaEffect(s1, n, Try(g)), n)
                          == if e then d.(loop := Working, flag := true, elected := true, tried := true)
                             else d.(loop := Resting, flag := false, tried := true))
  {
    var d := NodeOf(s, n);
    var s1 := HaEffect(s, n, Test);
    assert d.elected <==> s.lock == Some(n);
    if d.running {
      var g := Elected(s.lock, d.elected, granted);
      assert HaEnabled(s1, n, Try(g));
    }
  }
}
