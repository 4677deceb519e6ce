/**
 The queue workers under leader election: every node runs its worker only while it leads, mail is
 enqueued by other threads at any time, and nodes may die anywhere.
 */
module Cluster {
  import opened Disk
  import Leadership
  import MailQueue
  import opened Options
  import opened QueueProtocol
  import opened Runs

  /** Thread `n` of the queue is the controller thread of node `n` for every n in `members`. */
  datatype Cluster = Cluster(members: set<Thread>, ha: Leadership.Ha, queue: Sys)

  predicate WorkerPc(pc: Pc) {
    pc.Reclaiming? || pc.Leasing? || Holding(pc)
  }

  predicate WorkerStart(a: Action) {
    a.SeeExpired? || a.See?
  }

  predicate WorksNow(c: Cluster, t: Thread) {
    Leadership.NodeOf(c.ha, t).loop.Working?
  }

  datatype Event =
    | Queue(t: Thread, act: Action)
    | Ha(n: Thread, ha: Leadership.HaAction)
    | NodeDies(n: Thread)
    | PowerOff(after: Files)

  ghost predicate EventEnabled(c: Cluster, e: Event) {
    match e
    case Queue(t, a) =>
      && Enabled(c.queue, t, a) && !a.PowerLoss?
      && (if t in c.members then WorksNow(c, t) && !a.Die? && !a.Begin? else !WorkerStart(a))
    case Ha(n, a) =>
      && n in c.members && !a.Crash? && Leadership.HaEnabled(c.ha, n, a)
      && (a.FinishWork? ==> PcOf(c.queue, n).Idle?)
    case NodeDies(n) => n in c.members
    case PowerOff(after) => SurvivesPowerLoss(c.queue.files, after)
  }

  ghost function EventEffect(c: Cluster, e: Event): Cluster {
    match e
    case Queue(t, a) => c.(queue := Effect(c.queue, t, a))
    case Ha(n, a) => c.(ha := Leadership.HaEffect(c.ha, n, a))
    case NodeDies(n) =>
      c.(ha := Leadership.HaEffect(c.ha, n, Leadership.Crash), queue := Effect(c.queue, n, Die))
    case PowerOff(after) =>
      c.(ha := Leadership.Ha(None, map[]), queue := Effect(c.queue, 0, PowerLoss(after)))
  }

  ghost predicate ClusterNext(c: Cluster, c': Cluster) {
    exists e :: EventEnabled(c, e) && c' == EventEffect(c, e)
  }

  ghost predicate ClusterInit(c: Cluster) {
    Leadership.HaInit(c.ha) && Init(c.queue)
  }

  /** Whoever is between two operations of a worker is a node inside runOnce. */
  ghost predicate WorkersWork(c: Cluster) {
    forall t: Thread {:trigger PcOf(c.queue, t)} :: WorkerPc(PcOf(c.queue, t)) ==> t in c.members && WorksNow(c, t)
  }

  ghost predicate ClusterInv(c: Cluster) {
    Leadership.HaInv(c.ha) && Inv(c.queue) && WorkersWork(c)
  }

  lemma WorkersWorkKept(c: Cluster, e: Event, t: Thread)
    requires ClusterInv(c) && EventEnabled(c, e)
    ensures var c' := EventEffect(c, e);
            WorkerPc(PcOf(c'.queue, t)) ==> t in c'.members && WorksNow(c', t)
  {
    hide Inv, Effect, Enabled;
    assert WorkerPc(PcOf(c.queue, t)) ==> t in c.members && WorksNow(c, t);
    match e
    case Queue(u, a) =>
      if u != t { OthersStand(c.queue, u, a, t); } else { OnlyStartsMakeWorkers(c.queue, u, a); }
    case Ha(n, a) =>
      if n != t { Leadership.OtherNodesStand(c.ha, n, a, t); }
    case NodeDies(n) =>
      if n != t {
        Leadership.OtherNodesStand(c.ha, n, Leadership.Crash, t);
        OthersStand(c.queue, n, Die, t);
      } else {
        OnlyStartsMakeWorkers(c.queue, n, Die);
      }
    case PowerOff(after) =>
      OnlyStartsMakeWorkers(c.queue, 0, PowerLoss(after));
  }

  lemma OnlyStartsMakeWorkers(s: Sys, t: Thread, a: Action)
    ensures WorkerPc(PcOf(Effect(s, t, a), t)) ==> !a.Die? && !a.PowerLoss? && (WorkerStart(a) || WorkerPc(PcOf(s, t)))
    ensures a.PowerLoss? ==> Effect(s, t, a).pcs == map[]
  {
  }

  lemma ClusterStepKeepsInv(c: Cluster, e: Event)
    requires ClusterInv(c) && EventEnabled(c, e)
    ensures ClusterInv(EventEffect(c, e))
  {
    forall t: Thread ensures var c' := EventEffect(c, e); WorkerPc(PcOf(c'.queue, t)) ==> t in c'.members && WorksNow(c', t) {
      WorkersWorkKept(c, e, t);
    }
    match e
    case Queue(t, a) => StepKeepsInv(c.queue, t, a);
    case Ha(n, a) => Leadership.HaStepKeepsInv(c.ha, n, a);
    case NodeDies(n) =>
      StepKeepsInv(c.queue, n, Die);
      Leadership.HaStepKeepsInv(c.ha, n, Leadership.Crash);
    case PowerOff(after) =>
      StepKeepsInv(c.queue, 0, PowerLoss(after));
      Leadership.HaInitInv(Leadership.Ha(None, map[]));
  }

  lemma ClusterReachableInv(run: seq<Cluster>, i: nat)
    requires IsRun(ClusterNext, run) && ClusterInit(run[0]) && i < |run|
    ensures ClusterInv(run[i])
  {
    forall c, c' | ClusterInv(c) && ClusterNext(c, c') ensures ClusterInv(c') {
      var e :| EventEnabled(c, e) && c' == EventEffect(c, e);
      ClusterStepKeepsInv(c, e);
    }
    Leadership.HaInitInv(run[0].ha);
    Always(ClusterNext, ClusterInv, run, i);
  }

  /**
   In no run are two nodes inside the fetching, delivering or marking of messages at the same time,
   whether or not leases have run out, and the one that is holds the lock.
   */
  lemma OneNodeDelivers(run: seq<Cluster>, i: nat, t: Thread, u: Thread)
    requires IsRun(ClusterNext, run) && ClusterInit(run[0]) && i < |run|
    requires WorkerPc(PcOf(run[i].queue, t)) && WorkerPc(PcOf(run[i].queue, u))
    ensures t == u && run[i].ha.lock == Some(t)
  {
    ClusterReachableInv(run, i);
    assert Leadership.NodeOf(run[i].ha, t).elected <==> run[i].ha.lock == Some(t);
    assert Leadership.NodeOf(run[i].ha, u).elected <==> run[i].ha.lock == Some(u);
  }

  // ------------------------------------------------------------------ runs in which no node dies

  /** Neither a node nor the machine dies; the threads that enqueue mail may. */
  ghost predicate Calm(e: Event) {
    !e.NodeDies? && !e.PowerOff?
  }

  ghost predicate CalmNext(c: Cluster, c': Cluster) {
    exists e :: Calm(e) && EventEnabled(c, e) && c' == EventEffect(c, e)
  }

  /** A held message lies in `inflight`, expired or not. */
  ghost predicate HeldIsInflight(c: Cluster) {
    forall t: Thread {:trigger PcOf(c.queue, t)} ::
      Holding(PcOf(c.queue, t)) ==> Msg(Inflight, PcOf(c.queue, t).id) in c.queue.files
  }

  ghost predicate BeingMarked(s: Sys, id: string) {
    exists t: Thread :: (PcOf(s, t).Confirming? || PcOf(s, t).Removing?) && PcOf(s, t).id == id
  }

  /** A delivered message is gone or about to be removed by the worker that delivered it. */
  ghost predicate DeliveredIsLeaving(c: Cluster) {
    forall d :: d in c.queue.delivered ==> !Present(c.queue.files, d.id) || BeingMarked(c.queue, d.id)
  }

  ghost predicate CalmInv(c: Cluster) {
    ClusterInv(c) && HeldIsInflight(c) && DeliveredIsLeaving(c)
  }

  lemma SoleWorker(c: Cluster, t: Thread, u: Thread)
    requires ClusterInv(c) && WorksNow(c, t) && WorkerPc(PcOf(c.queue, u))
    ensures t == u
  {
    assert Leadership.NodeOf(c.ha, t).elected <==> c.ha.lock == Some(t);
    assert Leadership.NodeOf(c.ha, u).elected <==> c.ha.lock == Some(u);
  }

  /** Outside the worker pcs a thread moves nothing into or out of `inflight`. */
  lemma EnqueuersLeaveInflight(s: Sys, t: Thread, a: Action, id: string)
    requires Inv(s) && Enabled(s, t, a) && !WorkerPc(PcOf(s, t)) && !a.PowerLoss? && !WorkerStart(a)
    ensures Msg(Inflight, id) in Effect(s, t, a).files <==> Msg(Inflight, id) in s.files
    ensures Effect(s, t, a).delivered == s.delivered
    ensures !WorkerPc(PcOf(Effect(s, t, a), t))
  {
    hide OnePlace, Faithful, Accounted, DeliveredWhole, HoldersKnow, LeasesApart;
  }

  lemma HeldKept(c: Cluster, e: Event, t: Thread)
    requires CalmInv(c) && Calm(e) && EventEnabled(c, e)
    ensures var s' := EventEffect(c, e).queue; Holding(PcOf(s', t)) ==> Msg(Inflight, PcOf(s', t).id) in s'.files
  {
    if e.Queue? && Holding(PcOf(EventEffect(c, e).queue, t)) {
      var u, a := e.t, e.act;
      if u != t {
        OthersStand(c.queue, u, a, t);
        if u in c.members { SoleWorker(c, u, t); }
        EnqueuersLeaveInflight(c.queue, u, a, PcOf(c.queue, t).id);
      } else {
        HeldHere(c.queue, t, a);
      }
    }
  }

  lemma HeldHere(s: Sys, t: Thread, a: Action)
    requires Inv(s) && Enabled(s, t, a)
    requires Holding(PcOf(s, t)) ==> Msg(Inflight, PcOf(s, t).id) in s.files
    ensures Holding(PcOf(Effect(s, t, a), t)) ==> Msg(Inflight, PcOf(Effect(s, t, a), t).id) in Effect(s, t, a).files
  {
  }

  lemma LeavingKeptByOther(s: Sys, t: Thread, a: Action, d: Delivery)
    requires Inv(s) && Enabled(s, t, a) && !a.PowerLoss? && d in s.delivered
    requires a.Die? ==> !WorkerPc(PcOf(s, t))
    requires !Present(s.files, d.id) || BeingMarked(s, d.id)
    requires PcOf(s, t).Confirming? || PcOf(s, t).Removing? ==> Msg(Inflight, PcOf(s, t).id) in s.files
    ensures !Present(Effect(s, t, a).files, d.id) || BeingMarked(Effect(s, t, a), d.id)
  {
    var s' := Effect(s, t, a);
    assert d.id in s.accepted;
    if !Present(s.files, d.id) {
      RemovedByStep(s, t, a, d.id);
    } else {
      var m: Thread :| (PcOf(s, m).Confirming? || PcOf(s, m).Removing?) && PcOf(s, m).id == d.id;
      if m != t {
        OthersStand(s, t, a, m);
        assert PcOf(s', m) == PcOf(s, m);
      } else {
        MarkLeaves(s, t, a, d.id);
      }
    }
  }

  lemma MarkLeaves(s: Sys, t: Thread, a: Action, id: string)
    requires Inv(s) && Enabled(s, t, a) && !a.PowerLoss? && !a.Die?
    requires (PcOf(s, t).Confirming? || PcOf(s, t).Removing?) && PcOf(s, t).id == id && Msg(Inflight, id) in s.files
    ensures !Present(Effect(s, t, a).files, id) || BeingMarked(Effect(s, t, a), id)
  {
    var s' := Effect(s, t, a);
    if a.Remove? {
      forall f | QueueFolder(f) ensures Msg(f, id) !in s'.files {
      }
    } else {
      assert (PcOf(s', t).Confirming? || PcOf(s', t).Removing?) && PcOf(s', t).id == id;
    }
  }

  lemma LeavingKept(c: Cluster, e: Event, d: Delivery)
    requires CalmInv(c) && Calm(e) && EventEnabled(c, e) && d in EventEffect(c, e).queue.delivered
    ensures var s' := EventEffect(c, e).queue; !Present(s'.files, d.id) || BeingMarked(s', d.id)
  {
    hide Inv, Present, BeingMarked, Leadership.HaInv;
    var s := c.queue;
    if d in s.delivered {
      if e.Queue? {
        assert Holding(PcOf(s, e.t)) ==> Msg(Inflight, PcOf(s, e.t).id) in s.files;
        assert WorkerPc(PcOf(s, e.t)) ==> e.t in c.members;
        LeavingKeptByOther(s, e.t, e.act, d);
      }
    } else {
      NewlyDelivered(s, e.t, e.act, d);
    }
  }

  lemma NewlyDelivered(s: Sys, t: Thread, a: Action, d: Delivery)
    requires d !in s.delivered && d in Effect(s, t, a).delivered
    ensures BeingMarked(Effect(s, t, a), d.id)
  {
    var s' := Effect(s, t, a);
    assert PcOf(s', t).Confirming? && PcOf(s', t).id == d.id;
  }

  lemma CalmStepKeepsInv(c: Cluster, e: Event)
    requires CalmInv(c) && Calm(e) && EventEnabled(c, e)
    ensures CalmInv(EventEffect(c, e))
  {
    hide ClusterInv, EventEnabled, Effect, Present, BeingMarked;
    var c' := EventEffect(c, e);
    ClusterStepKeepsInv(c, e);
    forall t: Thread ensures Holding(PcOf(c'.queue, t)) ==> Msg(Inflight, PcOf(c'.queue, t).id) in c'.queue.files {
      HeldKept(c, e, t);
    }
    forall d | d in c'.queue.delivered ensures !Present(c'.queue.files, d.id) || BeingMarked(c'.queue, d.id) {
      LeavingKept(c, e, d);
    }
  }

  lemma CalmReachableInv(run: seq<Cluster>, i: nat)
    requires IsRun(CalmNext, run) && ClusterInit(run[0]) && i < |run|
    ensures CalmInv(run[i])
  {
    forall c, c' | CalmInv(c) && CalmNext(c, c') ensures CalmInv(c') {
      var e :| Calm(e) && EventEnabled(c, e) && c' == EventEffect(c, e);
      CalmStepKeepsInv(c, e);
    }
    Leadership.HaInitInv(run[0].ha);
    Always(CalmNext, CalmInv, run, i);
  }

  /**
   While no node dies, every message is delivered at most once: when the remote side takes a message
   it has not taken it before, however long earlier deliveries of other messages took.
   */
  lemma DeliveredAtMostOnce(run: seq<Cluster>, i: nat, t: Thread, d: Delivery)
    requires IsRun(CalmNext, run) && ClusterInit(run[0]) && i < |run|
    requires EventEnabled(run[i], Queue(t, Deliver(Success))) && d in run[i].queue.delivered
    ensures d.id != PcOf(run[i].queue, t).id
  {
    CalmReachableInv(run, i);
    var c := run[i];
    var id := PcOf(c.queue, t).id;
    assert t in c.members && WorksNow(c, t) by { assert WorkerPc(PcOf(c.queue, t)); }
    if d.id == id {
      assert Present(c.queue.files, id) by { assert QueueFolder(Inflight); }
      var m: Thread :| (PcOf(c.queue, m).Confirming? || PcOf(c.queue, m).Removing?) && PcOf(c.queue, m).id == id;
      SoleWorker(c, t, m);
      assert false;
    }
  }

  // ------------------------------------------------------------------ a death makes the difference

  lemma Happens(c0: Cluster, c: Cluster, e: Event) returns (c': Cluster)
    requires Reaches(ClusterNext, c0, c) && EventEnabled(c, e)
    ensures c' == EventEffect(c, e) && Reaches(ClusterNext, c0, c')
  {
    c' := EventEffect(c, e);
    assert ClusterNext(c, c');
    Extends(ClusterNext, c0, c, c');
  }

  lemma ComesToLead(c0: Cluster, c: Cluster, n: Thread) returns (c': Cluster)
    requires Reaches(ClusterNext, c0, c) && n in c.members
    requires c.ha.lock.None? && Leadership.NodeOf(c.ha, n) == Leadership.NEW_NODE
    ensures Reaches(ClusterNext, c0, c') && c' == c.(ha := c'.ha) && WorksNow(c', n) && c'.ha.lock == Some(n)
    ensures forall m: Thread :: m != n ==> Leadership.NodeOf(c'.ha, m) == Leadership.NodeOf(c.ha, m)
  {
    hide Reaches, ClusterNext;
    var c1 := Happens(c0, c, Ha(n, Leadership.Start));
    var c2 := Happens(c0, c1, Ha(n, Leadership.Test));
    c' := Happens(c0, c2, Ha(n, Leadership.Try(true)));
  }

  /** A step of the queue that leads to the queue state `s`. */
  lemma Acts(c0: Cluster, c: Cluster, t: Thread, a: Action, s: Sys) returns (c': Cluster)
    requires Reaches(ClusterNext, c0, c) && EventEnabled(c, Queue(t, a)) && s == Effect(c.queue, t, a)
    ensures c' == c.(queue := s) && Reaches(ClusterNext, c0, c')
  {
    c' := Happens(c0, c, Queue(t, a));
  }

  lemma Enqueues(c0: Cluster, c: Cluster, id: string, content: string) returns (c': Cluster)
    requires Reaches(ClusterNext, c0, c) && Init(c.queue) && 0 !in c.members
    ensures Reaches(ClusterNext, c0, c')
    ensures var f := File(content, true, c.queue.now);
            c' == c.(queue := Sys(map[Msg(Active, id) := f], c.queue.now, map[0 := Published(id)], {id}, map[id := f], {}))
  {
    hide Reaches, ClusterNext;
    var now := c.queue.now;
    var s1 := Sys(map[], now, map[0 := Creating(id, content)], {id}, map[], {});
    var c1 := Acts(c0, c, 0, Begin(id, content), s1);
    var s2 := s1.(pcs := map[0 := Writing(id, content)], files := map[Temp(id) := File("", false, now)]);
    var c2 := Acts(c0, c1, 0, CreateTemp(true), s2);
    var s3 := s1.(pcs := map[0 := Written(id, content)], files := map[Temp(id) := File(content, false, now)]);
    var c3 := Acts(c0, c2, 0, WriteTemp(|content|), s3);
    c' := Publishes(c0, c, c3, id, content);
  }

  lemma Publishes(c0: Cluster, c: Cluster, c3: Cluster, id: string, content: string) returns (c': Cluster)
    requires Reaches(ClusterNext, c0, c3) && 0 !in c.members
    requires c3 == c.(queue := Sys(map[Temp(id) := File(content, false, c.queue.now)], c.queue.now, map[0 := Written(id, content)], {id}, map[], {}))
    ensures Reaches(ClusterNext, c0, c')
    ensures var f := File(content, true, c.queue.now);
            c' == c.(queue := Sys(map[Msg(Active, id) := f], c.queue.now, map[0 := Published(id)], {id}, map[id := f], {}))
  {
    hide Reaches, ClusterNext;
    var f := File(content, true, c.queue.now);
    var s4 := c3.queue.(pcs := map[0 := Flushed(id, content)], files := map[Temp(id) := f]);
    var c4 := Acts(c0, c3, 0, FlushTemp(true), s4);
    c' := Happens(c0, c4, Queue(0, Publish(true)));
    assert c'.queue.files == map[Msg(Active, id) := f];
  }

  lemma Takes(c0: Cluster, c: Cluster, t: Thread, id: string, f: File) returns (c': Cluster)
    requires Reaches(ClusterNext, c0, c) && t in c.members && WorksNow(c, t)
    requires PcOf(c.queue, t).Idle? && c.queue.files == map[Msg(Active, id) := f]
    ensures Reaches(ClusterNext, c0, c')
    ensures c' == c.(queue := Goto(c.queue, t, Leased(id)).(files := map[Msg(Inflight, id) := f]))
  {
    hide Reaches, ClusterNext;
    var c1 := Acts(c0, c, t, See(id), Goto(c.queue, t, Leasing(id)));
    c' := Happens(c0, c1, Queue(t, Lease(true)));
    assert c'.queue.files == map[Msg(Inflight, id) := f];
    assert c'.queue.pcs == c.queue.pcs[t := Leased(id)];
  }

  lemma Leases(c0: Cluster, c: Cluster, t: Thread, id: string, f: File) returns (c': Cluster)
    requires Reaches(ClusterNext, c0, c) && t in c.members && WorksNow(c, t)
    requires PcOf(c.queue, t).Idle? && c.queue.files == map[Msg(Active, id) := f] && f.data != ""
    ensures Reaches(ClusterNext, c0, c')
    ensures c' == c.(queue := Goto(c.queue, t, Delivering(id, f.data)).(files := map[Msg(Inflight, id) := f]))
  {
    hide Reaches, ClusterNext;
    var c1 := Takes(c0, c, t, id, f);
    c' := Happens(c0, c1, Queue(t, Read));
    assert c'.queue.pcs == c.queue.pcs[t := Delivering(id, f.data)];
  }

  /** The next leader takes over what a dead one left in `inflight`, once the lease ran out. */
  lemma TakesOver(c0: Cluster, c: Cluster, t: Thread, id: string, f: File) returns (c': Cluster)
    requires Reaches(ClusterNext, c0, c) && t in c.members && WorksNow(c, t)
    requires PcOf(c.queue, t).Idle? && c.queue.files == map[Msg(Inflight, id) := f] && f.data != "" && f.written == c.queue.now
    ensures Reaches(ClusterNext, c0, c') && c'.members == c.members && WorksNow(c', t)
    ensures PcOf(c'.queue, t) == Delivering(id, f.data) && c'.queue.delivered == c.queue.delivered
  {
    hide Reaches, ClusterNext;
    var c1 := Happens(c0, c, Queue(t, Tick(LEASE_TIMEOUT + 1)));
    var c2 := Happens(c0, c1, Queue(t, SeeExpired(id)));
    var c3 := Happens(c0, c2, Queue(t, Reclaim(true)));
    assert c3.queue.files == map[Msg(Active, id) := f];
    c' := Leases(c0, c3, t, id, f);
  }

  lemma DeliversAndDies(c0: Cluster, c: Cluster, t: Thread, id: string, content: string) returns (c': Cluster)
    requires Reaches(ClusterNext, c0, c) && t in c.members && WorksNow(c, t) && PcOf(c.queue, t) == Delivering(id, content)
    ensures Reaches(ClusterNext, c0, c') && c'.members == c.members && c'.ha == Leadership.HaEffect(c.ha, t, Leadership.Crash)
    ensures c'.queue == Goto(c.queue, t, Idle).(delivered := c.queue.delivered + {Delivery(id, content)})
  {
    hide Reaches, ClusterNext, WorksNow;
    var c1 := Happens(c0, c, Queue(t, Deliver(Success)));
    c' := Happens(c0, c1, NodeDies(t));
    assert c'.queue.pcs == c.queue.pcs[t := Idle];
  }

  /**
   The condition of DeliveredAtMostOnce is needed: from every initial state, and for every message with content,
   a node that dies between delivery and removal leaves it to the next leader, who is about to deliver it again.
   */
  lemma DeliveredAgainAfterDeath(c0: Cluster, id: string, content: string)
    requires ClusterInit(c0) && 1 in c0.members && 2 in c0.members && 0 !in c0.members && content != ""
    ensures exists c :: && Reaches(ClusterNext, c0, c) && PcOf(c.queue, 2) == Delivering(id, content)
                        && EventEnabled(c, Queue(2, Deliver(Success))) && Delivery(id, content) in c.queue.delivered
  {
    hide Reaches, ClusterNext;
    var f := File(content, true, c0.queue.now);
    Stays(ClusterNext, c0);
    var c1 := Enqueues(c0, c0, id, content);
    var c2 := ComesToLead(c0, c1, 1);
    var c3 := Leases(c0, c2, 1, id, f);
    var c5 := DeliversAndDies(c0, c3, 1, id, content);
    Leadership.OtherNodesStand(c3.ha, 1, Leadership.Crash, 2);
    var c6 := ComesToLead(c0, c5, 2);
    var c7 := TakesOver(c0, c6, 2, id, f);
    assert EventEnabled(c7, Queue(2, Deliver(Success)));
  }

  // ------------------------------------------------------------------ what a leader may rely on

  /** Whatever may happen beside the controller thread of node `n` while the node lives; stop is called by another thread. */
  ghost predicate Beside(n: Thread, e: Event) {
    match e
    case Queue(t, _) => t != n
    case Ha(m, a) => m == n ==> a.Start? || a.Stop? || a.Release?
    case NodeDies(m) => m != n
    case PowerOff(_) => false
  }

  ghost function BesideNext(n: Thread): (Cluster, Cluster) -> bool {
    (c, c') => exists e :: Beside(n, e) && EventEnabled(c, e) && c' == EventEffect(c, e)
  }

  /** From the queue `s` on, node `n` has been working, and others moved nothing into or out of `inflight`. */
  ghost predicate Sheltered(n: Thread, s: Sys, c: Cluster) {
    ClusterInv(c) && WorksNow(c, n) && SameInflight(s.files, c.queue.files) && Reaches(MailQueue.OtherNext(n), s, c.queue)
  }

  lemma BesideKeepsInflight(c: Cluster, n: Thread, e: Event)
    requires ClusterInv(c) && WorksNow(c, n) && Beside(n, e) && EventEnabled(c, e)
    ensures SameInflight(c.queue.files, EventEffect(c, e).queue.files)
  {
    if e.Queue? {
      var t, a := e.t, e.act;
      assert WorksNow(c, t) ==> t == n by {
        assert Leadership.NodeOf(c.ha, t).elected <==> c.ha.lock == Some(t);
        assert Leadership.NodeOf(c.ha, n).elected <==> c.ha.lock == Some(n);
      }
      assert WorkerPc(PcOf(c.queue, t)) ==> t in c.members;
      forall id ensures Msg(Inflight, id) in EventEffect(c, e).queue.files <==> Msg(Inflight, id) in c.queue.files {
        EnqueuersLeaveInflight(c.queue, t, a, id);
      }
    }
  }

  lemma BesideLeavesWorking(c: Cluster, n: Thread, e: Event)
    requires ClusterInv(c) && WorksNow(c, n) && Beside(n, e) && EventEnabled(c, e)
    ensures WorksNow(EventEffect(c, e), n)
  {
    match e
    case Queue(_, _) =>
    case Ha(m, a) =>
      if m != n { Leadership.OtherNodesStand(c.ha, m, a, n); } else { assert Leadership.NodeSound(c.ha, n); }
    case NodeDies(m) => Leadership.OtherNodesStand(c.ha, m, Leadership.Crash, n);
  }

  lemma BesideIsOthers(c: Cluster, n: Thread, e: Event, s: Sys)
    requires Beside(n, e) && EventEnabled(c, e) && Reaches(MailQueue.OtherNext(n), s, c.queue)
    ensures Reaches(MailQueue.OtherNext(n), s, EventEffect(c, e).queue)
  {
    hide Reaches, MailQueue.OtherNext, Effect, Enabled;
    match e
    case Queue(t, a) => MailQueue.OthersProceed(n, s, c.queue, t, a);
    case Ha(_, _) =>
    case NodeDies(m) =>
      assert Enabled(c.queue, m, Die) by { DyingIsEnabled(c.queue, m); }
      MailQueue.OthersProceed(n, s, c.queue, m, Die);
  }

  lemma DyingIsEnabled(s: Sys, t: Thread)
    ensures Enabled(s, t, Die)
  {
  }

  /**
   While a node is inside runOnce, nothing that happens beside its thread, the death of other nodes included,
   takes it out of there or changes which messages lie in `inflight`; to the queue it is a run of other threads.
   So a leader's call of fetchReady never throws, as FetchReady says of calls that are `led`.
   */
  lemma InflightStays(run: seq<Cluster>, i: nat, n: Thread, c: Cluster)
    requires IsRun(ClusterNext, run) && ClusterInit(run[0]) && i < |run|
    requires WorksNow(run[i], n) && Reaches(BesideNext(n), run[i], c)
    ensures WorksNow(c, n) && SameInflight(run[i].queue.files, c.queue.files)
    ensures Reaches(MailQueue.OtherNext(n), run[i].queue, c.queue)
  {
    hide ClusterInv, WorksNow, Reaches, MailQueue.OtherNext, Effect, Enabled, EventEffect, EventEnabled;
    ClusterReachableInv(run, i);
    var s := run[i].queue;
    Stays(MailQueue.OtherNext(n), s);
    var inv := (c: Cluster) => Sheltered(n, s, c);
    forall x: Cluster, y: Cluster | inv(x) && BesideNext(n)(x, y) ensures inv(y) {
      var e :| Beside(n, e) && EventEnabled(x, e) && y == EventEffect(x, e);
      ClusterStepKeepsInv(x, e);
      BesideKeepsInflight(x, n, e);
      BesideLeavesWorking(x, n, e);
      BesideIsOthers(x, n, e, s);
    }
    ReachesKeeps(BesideNext(n), inv, run[i], c);
  }
}
