/**
 The mail queue as a protocol. Any number of threads, in any number of processes, share the queue
 directories; every file operation of `enqueue`, `fetchReady` and the three `mark` operations is one
 step, and between any two steps other threads may run, time may pass, a thread may die, the machine
 may lose power, and a starting process may sweep temp files.
 */
module QueueProtocol {
  import opened Disk
  import opened Runs

  const LEASE_TIMEOUT := 300

  type Thread = nat

  datatype Outcome = Success | TemporaryFailure | PermanentFailure

  /** Where a thread stands between two file operations. */
  datatype Pc =
    | Idle
    // enqueue
    | Creating(id: string, content: string)
    | Writing(id: string, content: string)
    | Written(id: string, content: string)
    | Flushed(id: string, content: string)
    | Aborting(id: string)
    | Published(id: string)
    // fetchReady
    | Reclaiming(id: string)
    | Leasing(id: string)
    | Leased(id: string)
    | Unreadable(id: string)
    | Emptied(id: string)
    // runOnce and the mark operations
    | Delivering(id: string, content: string)
    | Confirming(id: string)
    | Removing(id: string)
    | Refused(id: string, permanently: bool)

  datatype Delivery = Delivery(id: string, content: string)

  /**
   The shared state. `issued`, `accepted` and `delivered` are history: the ids handed out, the files
   that reached `active`, and the messages the remote side took.
   */
  datatype Sys = Sys(
    files: Files,
    now: nat,
    pcs: map<Thread, Pc>,
    issued: set<string>,
    accepted: map<string, File>,
    delivered: set<Delivery>)

  function PcOf(s: Sys, t: Thread): Pc {
    if t in s.pcs then s.pcs[t] else Idle
  }

  predicate QueueFolder(f: Folder) {
    f.Active? || f.Inflight? || f.Failure? || f.PermanentFail?
  }

  function Msg(f: Folder, id: string): Path { Path(f, id, false) }

  function Temp(id: string): Path { Path(Active, id, true) }

  /** The lease test looks at the write time, which no rename refreshes. */
  predicate Expired(f: File, now: nat) {
    now > f.written + LEASE_TIMEOUT
  }

  /** One file operation, with the choices the environment makes for it. */
  datatype Action =
    | Begin(id: string, content: string)
    | CreateTemp(ok: bool)
    | WriteTemp(count: nat)
    | FlushTemp(ok: bool)
    | Publish(ok: bool)
    | Abort(ok: bool)
    | Verify(found: bool)
    | SeeExpired(id: string)
    | Reclaim(ok: bool)
    | See(id: string)
    | Lease(ok: bool)
    | LoseLease
    | Read
    | ReadFails
    | PutBack(ok: bool)
    | Bury(ok: bool)
    | Deliver(outcome: Outcome)
    | Confirm
    | Remove
    | Shelve(ok: bool)
    | Tick(d: nat)
    | Die
    | Sweep(id: string)
    | PowerLoss(after: Files)

  ghost predicate Enabled(s: Sys, t: Thread, a: Action) {
    var pc := PcOf(s, t);
    match a
    case Begin(id, c) => pc.Idle? && id !in s.issued
    case CreateTemp(ok) => pc.Creating?
    case WriteTemp(n) => pc.Writing? && n <= |pc.content|
    case FlushTemp(ok) => pc.Written?
    case Publish(ok) => pc.Flushed? && (ok ==> Temp(pc.id) in s.files)
    case Abort(ok) => pc.Aborting?
    case Verify(found) => pc.Published? && found == (Msg(Active, pc.id) in s.files)
    case SeeExpired(id) => pc.Idle? && Msg(Inflight, id) in s.files && Expired(s.files[Msg(Inflight, id)], s.now)
    case Reclaim(ok) => pc.Reclaiming? && (ok ==> Msg(Inflight, pc.id) in s.files)
    case See(id) => pc.Idle? && Msg(Inflight, id) !in s.files
    case Lease(ok) => pc.Leasing? && (ok ==> Msg(Active, pc.id) in s.files)
    case LoseLease => pc.Leased? && Msg(Inflight, pc.id) !in s.files
    case Read => pc.Leased? && Msg(Inflight, pc.id) in s.files
    case ReadFails => pc.Leased?
    case PutBack(ok) => pc.Unreadable? && (ok ==> Msg(Inflight, pc.id) in s.files)
    case Bury(ok) => pc.Emptied? && (ok ==> Msg(Inflight, pc.id) in s.files)
    case Deliver(o) => pc.Delivering?
    case Confirm => pc.Confirming?
    case Remove => pc.Removing?
    case Shelve(ok) => pc.Refused? && (ok ==> Msg(Inflight, pc.id) in s.files)
    case Tick(d) => true
    case Die => true
    case Sweep(id) => true
    case PowerLoss(after) => SurvivesPowerLoss(s.files, after)
  }

  function Goto(s: Sys, t: Thread, pc: Pc): Sys {
    s.(pcs := s.pcs[t := pc])
  }

  function Moved(s: Sys, id: string, src: Folder, dst: Folder, ok: bool): Sys {
    if ok && Msg(src, id) in s.files then s.(files := Renamed(s.files, Msg(src, id), Msg(dst, id))) else s
  }

  function TempChanged(s: Sys, id: string, f: File): Sys {
    if Temp(id) in s.files then s.(files := s.files[Temp(id) := f]) else s
  }

  /** The state one file operation leaves behind. */
  function Effect(s: Sys, t: Thread, a: Action): Sys {
    var pc := PcOf(s, t);
    match (a, pc)
    case (Begin(id, c), _) => Goto(s, t, Creating(id, c)).(issued := s.issued + {id})
    case (CreateTemp(ok), Creating(id, c)) =>
      if ok then Goto(s, t, Writing(id, c)).(files := s.files[Temp(id) := File("", false, s.now)])
      else Goto(s, t, Idle)
    case (WriteTemp(n), Writing(id, c)) =>
      if n == |c| then TempChanged(Goto(s, t, Written(id, c)), id, File(c, false, s.now))
      else if n < |c| then TempChanged(Goto(s, t, Aborting(id)), id, File(c[..n], false, s.now))
      else s
    case (FlushTemp(ok), Written(id, c)) =>
      if !ok then Goto(s, t, Aborting(id))
      else if Temp(id) in s.files then TempChanged(Goto(s, t, Flushed(id, c)), id, s.files[Temp(id)].(durable := true))
      else Goto(s, t, Flushed(id, c))
    case (Publish(ok), Flushed(id, c)) =>
      if ok && Temp(id) in s.files then
        Goto(s, t, Published(id)).(files := Renamed(s.files, Temp(id), Msg(Active, id)),
                                   accepted := s.accepted[id := s.files[Temp(id)]])
      else Goto(s, t, Aborting(id))
    case (Abort(ok), Aborting(id)) => Goto(s, t, Idle).(files := if ok then Removed(s.files, Temp(id)) else s.files)
    case (Verify(_), _) => Goto(s, t, Idle)
    case (SeeExpired(id), _) => Goto(s, t, Reclaiming(id))
    case (Reclaim(ok), Reclaiming(id)) => Moved(Goto(s, t, Idle), id, Inflight, Active, ok)
    case (See(id), _) => Goto(s, t, Leasing(id))
    case (Lease(ok), Leasing(id)) => Moved(Goto(s, t, if ok then Leased(id) else Idle), id, Active, Inflight, ok)
    case (LoseLease, _) => Goto(s, t, Idle)
    case (Read, Leased(id)) =>
      if Msg(Inflight, id) !in s.files then s
      else if s.files[Msg(Inflight, id)].data == "" then Goto(s, t, Emptied(id))
      else Goto(s, t, Delivering(id, s.files[Msg(Inflight, id)].data))
    case (ReadFails, Leased(id)) => Goto(s, t, Unreadable(id))
    case (PutBack(ok), Unreadable(id)) => Moved(Goto(s, t, Idle), id, Inflight, Active, ok)
    case (Bury(ok), Emptied(id)) => Moved(Goto(s, t, Idle), id, Inflight, PermanentFail, ok)
    case (Deliver(o), Delivering(id, c)) =>
      (match o
       case Success => Goto(s, t, Confirming(id)).(delivered := s.delivered + {Delivery(id, c)})
       case TemporaryFailure => Goto(s, t, Refused(id, false))
       case PermanentFailure => Goto(s, t, Refused(id, true)))
    case (Confirm, Confirming(id)) => Goto(s, t, if Msg(Inflight, id) in s.files then Removing(id) else Idle)
    case (Remove, Removing(id)) => Goto(s, t, Idle).(files := Removed(s.files, Msg(Inflight, id)))
    case (Shelve(ok), Refused(id, p)) =>
      Moved(Goto(s, t, Idle), id, Inflight, if p then PermanentFail else Failure, ok)
    case (Tick(d), _) => s.(now := s.now + d)
    case (Die, _) => Goto(s, t, Idle)
    case (Sweep(id), _) => s.(files := Removed(s.files, Temp(id)))
    case (PowerLoss(after), _) => s.(files := after, pcs := map[])
    case _ => s
  }

  ghost predicate Next(s: Sys, s': Sys) {
    exists t, a :: Enabled(s, t, a) && s' == Effect(s, t, a)
  }

  ghost predicate Init(s: Sys) {
    s.files == map[] && s.pcs == map[] && s.issued == {} && s.accepted == map[] && s.delivered == {}
  }

  // ------------------------------------------------------------------ what every step keeps

  predicate Enqueuing(pc: Pc) {
    pc.Creating? || pc.Writing? || pc.Written? || pc.Flushed? || pc.Aborting?
  }

  /** The thread owns the message it leased until it has marked it. */
  predicate Holding(pc: Pc) {
    pc.Leased? || pc.Unreadable? || pc.Emptied? || pc.Delivering? || pc.Confirming? || pc.Removing? || pc.Refused?
  }

  ghost predicate Present(files: Files, id: string) {
    exists f :: QueueFolder(f) && Msg(f, id) in files
  }

  /** The same messages lie in `inflight`. */
  ghost predicate SameInflight(fs: Files, fs': Files) {
    forall id :: Msg(Inflight, id) in fs' <==> Msg(Inflight, id) in fs
  }

  /** No message lies in two directories. */
  ghost predicate OnePlace(s: Sys) {
    forall f, g, id :: QueueFolder(f) && QueueFolder(g) && Msg(f, id) in s.files && Msg(g, id) in s.files ==> f == g
  }

  /** Whatever lies in a queue directory was accepted, flushed, and still has its content and write time. */
  ghost predicate Faithful(s: Sys) {
    forall f, id :: QueueFolder(f) && Msg(f, id) in s.files ==>
      id in s.accepted && s.files[Msg(f, id)] == s.accepted[id] && s.accepted[id].durable
  }

  /** A message that is nowhere was delivered. */
  ghost predicate Accounted(s: Sys) {
    forall id :: id in s.accepted && !Present(s.files, id) ==> Delivery(id, s.accepted[id].data) in s.delivered
  }

  /** What the remote side took is what was enqueued. */
  ghost predicate DeliveredWhole(s: Sys) {
    forall d :: d in s.delivered ==> d.id in s.accepted && d.content == s.accepted[d.id].data
  }

  /** An id being written is not accepted yet, its temp file holds what the thread believes, and a published id is accepted. */
  ghost predicate WriterSound(s: Sys, t: Thread) {
    var pc := PcOf(s, t);
    && (Enqueuing(pc) ==> pc.id in s.issued && pc.id !in s.accepted)
    && (pc.Published? ==> pc.id in s.accepted)
    && (pc.Written? && Temp(pc.id) in s.files ==> s.files[Temp(pc.id)].data == pc.content)
    && (pc.Flushed? && Temp(pc.id) in s.files ==> s.files[Temp(pc.id)].data == pc.content && s.files[Temp(pc.id)].durable)
  }

  ghost predicate WritersDiffer(s: Sys, t: Thread, u: Thread) {
    Enqueuing(PcOf(s, t)) && Enqueuing(PcOf(s, u)) && PcOf(s, t).id == PcOf(s, u).id ==> t == u
  }

  /** No two threads write the same id. */
  ghost predicate WritersApart(s: Sys) {
    && (forall id :: id in s.accepted ==> id in s.issued)
    && (forall t :: WriterSound(s, t))
    && (forall t, u :: WritersDiffer(s, t, u))
  }

  /** What a thread knows about the message it holds or is about to reclaim. */
  ghost predicate HolderKnows(s: Sys, t: Thread) {
    var pc := PcOf(s, t);
    && (Holding(pc) ==> pc.id in s.accepted)
    && (pc.Delivering? ==> pc.content == s.accepted[pc.id].data && pc.content != "")
    && (pc.Confirming? || pc.Removing? ==> Delivery(pc.id, s.accepted[pc.id].data) in s.delivered)
    && (pc.Reclaiming? ==> pc.id in s.accepted && Expired(s.accepted[pc.id], s.now))
  }

  ghost predicate HoldersKnow(s: Sys) {
    forall t :: HolderKnows(s, t)
  }

  ghost predicate LeaseRuns(s: Sys, id: string) {
    id in s.accepted && !Expired(s.accepted[id], s.now)
  }

  /** Until the lease runs out a held message lies in `inflight` ... */
  ghost predicate LeaseInPlace(s: Sys, t: Thread) {
    Holding(PcOf(s, t)) && LeaseRuns(s, PcOf(s, t).id) ==> Msg(Inflight, PcOf(s, t).id) in s.files
  }

  /** ... and has one holder. */
  ghost predicate LeasesDiffer(s: Sys, t: Thread, u: Thread) {
    && Holding(PcOf(s, t)) && Holding(PcOf(s, u)) && PcOf(s, t).id == PcOf(s, u).id && LeaseRuns(s, PcOf(s, t).id)
    ==> t == u
  }

  ghost predicate LeasesApart(s: Sys) {
    && (forall t :: LeaseInPlace(s, t))
    && (forall t, u :: LeasesDiffer(s, t, u))
  }

  ghost predicate Inv(s: Sys) {
    && OnePlace(s)
    && Faithful(s)
    && Accounted(s)
    && DeliveredWhole(s)
    && WritersApart(s)
    && HoldersKnow(s)
    && LeasesApart(s)
  }

  /** A step leaves the other threads where they are; only a power loss stops them. */
  lemma OthersStand(s: Sys, t: Thread, a: Action, u: Thread)
    requires u != t
    ensures PcOf(Effect(s, t, a), u) == if a.PowerLoss? then Idle else PcOf(s, u)
  {
  }

  lemma OnePlaceKept(s: Sys, t: Thread, a: Action)
    requires Enabled(s, t, a) && OnePlace(s) && Faithful(s) && WritersApart(s)
    ensures OnePlace(Effect(s, t, a))
  {
    assert WriterSound(s, t);
  }

  lemma FaithfulKept(s: Sys, t: Thread, a: Action)
    requires Enabled(s, t, a) && Faithful(s) && WritersApart(s)
    ensures Faithful(Effect(s, t, a))
  {
    assert WriterSound(s, t);
  }

  lemma AccountedKept(s: Sys, t: Thread, a: Action)
    requires Inv(s) && Enabled(s, t, a)
    ensures Accounted(Effect(s, t, a))
  {
    hide OnePlace, LeasesApart, DeliveredWhole;
    assert WriterSound(s, t) && HolderKnows(s, t);
  }

  lemma DeliveredWholeKept(s: Sys, t: Thread, a: Action)
    requires Inv(s) && Enabled(s, t, a)
    ensures DeliveredWhole(Effect(s, t, a))
  {
    hide OnePlace, LeasesApart, Accounted, Faithful;
    assert WriterSound(s, t) && HolderKnows(s, t);
  }

  /** History only grows, and only a publishing thread adds to the accepted messages. */
  lemma HistoryGrows(s: Sys, t: Thread, a: Action, s': Sys)
    requires Enabled(s, t, a) && WriterSound(s, t) && s' == Effect(s, t, a)
    ensures s.issued <= s'.issued && s.delivered <= s'.delivered && s.now <= s'.now
    ensures forall id :: id in s.accepted ==> id in s'.accepted && s'.accepted[id] == s.accepted[id]
    ensures forall id :: id in s'.accepted && id !in s.accepted ==> PcOf(s, t).Flushed? && PcOf(s, t).id == id
  {
  }

  /** A thread touches no temp file but the one of the id it writes; a sweep or a power loss may take others. */
  lemma TempsApart(s: Sys, t: Thread, a: Action, s': Sys, id: string)
    requires Enabled(s, t, a) && s' == Effect(s, t, a)
    requires Enqueuing(PcOf(s, t)) ==> PcOf(s, t).id != id
    ensures !a.PowerLoss? && Temp(id) in s'.files ==> Temp(id) in s.files && s'.files[Temp(id)] == s.files[Temp(id)]
  {
  }

  lemma WriterSoundElsewhere(s: Sys, t: Thread, a: Action, u: Thread)
    requires Enabled(s, t, a) && WritersApart(s) && u != t
    ensures WriterSound(Effect(s, t, a), u)
  {
    assert WriterSound(s, t) && WriterSound(s, u) && WritersDiffer(s, t, u);
    OthersStand(s, t, a, u);
    HistoryGrows(s, t, a, Effect(s, t, a));
    if !a.PowerLoss? && Enqueuing(PcOf(s, u)) {
      TempsApart(s, t, a, Effect(s, t, a), PcOf(s, u).id);
    }
  }

  lemma WriterSoundHere(s: Sys, t: Thread, a: Action)
    requires Enabled(s, t, a) && WritersApart(s)
    ensures WriterSound(Effect(s, t, a), t)
  {
    assert WriterSound(s, t);
  }

  lemma WritersDifferKept(s: Sys, t: Thread, a: Action, u: Thread)
    requires Enabled(s, t, a) && WritersApart(s) && u != t
    ensures WritersDiffer(Effect(s, t, a), t, u)
  {
    assert WriterSound(s, u) && WritersDiffer(s, t, u);
    OthersStand(s, t, a, u);
  }

  lemma WritersApartKept(s: Sys, t: Thread, a: Action)
    requires Enabled(s, t, a) && WritersApart(s)
    ensures WritersApart(Effect(s, t, a))
  {
    var s' := Effect(s, t, a);
    assert WriterSound(s, t);
    HistoryGrows(s, t, a, s');
    forall u: Thread ensures WriterSound(s', u) {
      if u == t { WriterSoundHere(s, t, a); } else { WriterSoundElsewhere(s, t, a, u); }
    }
    forall u: Thread, v: Thread ensures WritersDiffer(s', u, v) {
      if u != t && v != t {
        OthersStand(s, t, a, u);
        OthersStand(s, t, a, v);
        assert WritersDiffer(s, u, v);
      } else if u != v {
        WritersDifferKept(s, t, a, if u == t then v else u);
        assert WritersDiffer(s', t, if u == t then v else u);
      }
    }
  }

  lemma HolderKnowsHere(s: Sys, t: Thread, a: Action)
    requires Enabled(s, t, a) && HolderKnows(s, t) && Faithful(s)
    ensures HolderKnows(Effect(s, t, a), t)
  {
  }

  lemma HolderKnowsKept(s: Sys, t: Thread, a: Action, u: Thread)
    requires Enabled(s, t, a) && WritersApart(s) && HoldersKnow(s) && Faithful(s)
    ensures HolderKnows(Effect(s, t, a), u)
  {
    assert WriterSound(s, t) && HolderKnows(s, t) && HolderKnows(s, u);
    if u == t {
      HolderKnowsHere(s, t, a);
    } else {
      OthersStand(s, t, a, u);
      HistoryGrows(s, t, a, Effect(s, t, a));
    }
  }

  /** While a lease runs only its holder takes the message out of `inflight`. */
  lemma LeaseStays(s: Sys, t: Thread, a: Action, id: string)
    requires Inv(s) && Enabled(s, t, a) && Msg(Inflight, id) in s.files && LeaseRuns(s, id)
    requires Holding(PcOf(s, t)) ==> PcOf(s, t).id != id
    ensures Msg(Inflight, id) in Effect(s, t, a).files
  {
    assert WriterSound(s, t) && HolderKnows(s, t);
  }

  lemma LeaseInPlaceHere(s: Sys, t: Thread, a: Action)
    requires Inv(s) && Enabled(s, t, a)
    ensures LeaseInPlace(Effect(s, t, a), t)
  {
    hide Accounted, DeliveredWhole;
    assert LeaseInPlace(s, t) && HolderKnows(s, t);
  }

  lemma LeaseInPlaceKept(s: Sys, t: Thread, a: Action, u: Thread)
    requires Inv(s) && Enabled(s, t, a)
    ensures LeaseInPlace(Effect(s, t, a), u)
  {
    assert WriterSound(s, t) && HolderKnows(s, u);
    if u == t {
      LeaseInPlaceHere(s, t, a);
    } else {
      OthersStand(s, t, a, u);
      HistoryGrows(s, t, a, Effect(s, t, a));
      assert LeaseInPlace(s, u) && LeasesDiffer(s, t, u);
      var pc := PcOf(s, u);
      if Holding(pc) && !a.PowerLoss? && LeaseRuns(Effect(s, t, a), pc.id) {
        LeaseStays(s, t, a, pc.id);
      }
    }
  }

  lemma LeasesDifferKept(s: Sys, t: Thread, a: Action, u: Thread)
    requires Inv(s) && Enabled(s, t, a) && u != t
    ensures LeasesDiffer(Effect(s, t, a), t, u)
  {
    hide Faithful, Accounted, DeliveredWhole;
    assert WriterSound(s, t) && HolderKnows(s, t) && HolderKnows(s, u);
    assert LeaseInPlace(s, t) && LeaseInPlace(s, u) && LeasesDiffer(s, t, u);
    OthersStand(s, t, a, u);
  }

  lemma LeasesApartKept(s: Sys, t: Thread, a: Action)
    requires Inv(s) && Enabled(s, t, a)
    ensures LeasesApart(Effect(s, t, a))
  {
    hide OnePlace, Faithful, Accounted, DeliveredWhole;
    var s' := Effect(s, t, a);
    forall u: Thread ensures LeaseInPlace(s', u) {
      LeaseInPlaceKept(s, t, a, u);
    }
    forall u: Thread, v: Thread ensures LeasesDiffer(s', u, v) {
      if u != t { LeasesDifferKept(s, t, a, u); OthersStand(s, t, a, u); }
      if v != t { LeasesDifferKept(s, t, a, v); OthersStand(s, t, a, v); }
      assert LeasesDiffer(s, u, v) && HolderKnows(s, u) && WriterSound(s, t);
    }
  }

  /** Every step of every thread, and every crash, keeps the queue's invariant. */
  lemma StepKeepsInv(s: Sys, t: Thread, a: Action)
    requires Inv(s) && Enabled(s, t, a)
    ensures Inv(Effect(s, t, a))
  {
    OnePlaceKept(s, t, a);
    FaithfulKept(s, t, a);
    AccountedKept(s, t, a);
    DeliveredWholeKept(s, t, a);
    WritersApartKept(s, t, a);
    forall u: Thread ensures HolderKnows(Effect(s, t, a), u) {
      HolderKnowsKept(s, t, a, u);
    }
    LeasesApartKept(s, t, a);
  }

  lemma InvInductive()
    ensures Inductive(Next, Inv)
  {
    forall s, s' | Inv(s) && Next(s, s') ensures Inv(s') {
      var t: Thread, a :| Enabled(s, t, a) && s' == Effect(s, t, a);
      StepKeepsInv(s, t, a);
    }
  }

  lemma ReachableInv(run: seq<Sys>, i: nat)
    requires IsRun(Next, run) && Init(run[0]) && i < |run|
    ensures Inv(run[i])
  {
    InvInductive();
    assert Inv(run[0]);
    Always(Next, Inv, run, i);
  }

  // ------------------------------------------------------------------ results over all runs

  /** Exactly one queue directory has the message, with the bytes and write time it was accepted with. */
  ghost predicate InOnePlaceWhole(s: Sys, id: string, f: File) {
    exists d :: && QueueFolder(d) && Msg(d, id) in s.files && s.files[Msg(d, id)] == f
                && forall e :: QueueFolder(e) && Msg(e, id) in s.files ==> e == d
  }

  lemma {:induction false} AcceptedKept(run: seq<Sys>, i: nat, j: nat, id: string)
    requires IsRun(Next, run) && Init(run[0]) && i <= j < |run| && id in run[i].accepted
    ensures id in run[j].accepted && run[j].accepted[id] == run[i].accepted[id]
  {
    hide Enabled, Effect, Init, OnePlace, Faithful, Accounted, DeliveredWhole, HoldersKnow, LeasesApart;
    if i < j {
      AcceptedKept(run, i, j - 1, id);
      var s := run[j - 1];
      assert Next(s, run[j]);
      var t: Thread, a :| Enabled(s, t, a) && run[j] == Effect(s, t, a);
      ReachableInv(run, j - 1);
      assert WriterSound(s, t);
      HistoryGrows(s, t, a, run[j]);
    }
  }

  /**
   No message is lost or altered: from the step that accepts it on, in every later state of every
   run, a message is whole in exactly one of the four directories, or it is in none of them and the
   remote side took exactly these bytes.
   */
  lemma MessagesConserved(run: seq<Sys>, i: nat, j: nat, id: string)
    requires IsRun(Next, run) && Init(run[0]) && i <= j < |run| && id in run[i].accepted
    ensures || InOnePlaceWhole(run[j], id, run[i].accepted[id])
            || (!Present(run[j].files, id) && Delivery(id, run[i].accepted[id].data) in run[j].delivered)
  {
    AcceptedKept(run, i, j, id);
    ReachableInv(run, j);
    if Present(run[j].files, id) {
      var d :| QueueFolder(d) && Msg(d, id) in run[j].files;
      assert run[j].files[Msg(d, id)] == run[i].accepted[id];
    }
  }

  /** Where a step puts a message that lies in folder `d`, if the step is no removal of it. */
  function Destination(s: Sys, t: Thread, a: Action, id: string, d: Folder): Folder {
    var pc := PcOf(s, t);
    match (a, pc)
    case (Reclaim(ok), Reclaiming(x)) => if ok && x == id && d == Inflight then Active else d
    case (Lease(ok), Leasing(x)) => if ok && x == id && d == Active then Inflight else d
    case (PutBack(ok), Unreadable(x)) => if ok && x == id && d == Inflight then Active else d
    case (Bury(ok), Emptied(x)) => if ok && x == id && d == Inflight then PermanentFail else d
    case (Shelve(ok), Refused(x, p)) => if ok && x == id && d == Inflight then if p then PermanentFail else Failure else d
    case _ => d
  }

  lemma MovesToDestination(s: Sys, t: Thread, a: Action, id: string, d: Folder)
    requires Enabled(s, t, a) && Faithful(s) && QueueFolder(d) && Msg(d, id) in s.files
    requires !(a.Remove? && PcOf(s, t) == Removing(id))
    ensures var e := Destination(s, t, a, id, d); QueueFolder(e) && Msg(e, id) in Effect(s, t, a).files
  {
  }

  lemma OnlyRemoveRemoves(s: Sys, t: Thread, a: Action, id: string)
    requires Inv(s) && Enabled(s, t, a) && Present(s.files, id) && !Present(Effect(s, t, a).files, id)
    ensures a.Remove? && PcOf(s, t) == Removing(id) && id in s.accepted && Delivery(id, s.accepted[id].data) in s.delivered
  {
    hide Effect, Enabled, LeasesApart, DeliveredWhole, OnePlace, Accounted, WritersApart;
    var d :| QueueFolder(d) && Msg(d, id) in s.files;
    assert HolderKnows(s, t);
    if !(a.Remove? && PcOf(s, t) == Removing(id)) {
      MovesToDestination(s, t, a, id, d);
    }
  }

  /** The ways a thread moves a message from one directory to another, by where the thread stands. */
  predicate MayMove(pc: Pc, id: string, d: Folder, e: Folder) {
    match pc
    case Reclaiming(x) => x == id && d == Inflight && e == Active        // an expired lease
    case Leasing(x) => x == id && d == Active && e == Inflight
    case Unreadable(x) => x == id && d == Inflight && e == Active        // given back
    case Emptied(x) => x == id && d == Inflight && e == PermanentFail
    case Refused(x, permanently) => x == id && d == Inflight && e == if permanently then PermanentFail else Failure
    case _ => false
  }

  predicate MovesOwn(s: Sys, t: Thread, id: string, d: Folder, e: Folder) { MayMove(PcOf(s, t), id, d, e) }

  ghost predicate SomebodyMoves(s: Sys, id: string, d: Folder, e: Folder) {
    exists t: Thread :: MovesOwn(s, t, id, d, e)
  }

  lemma MoveByStep(s: Sys, t: Thread, a: Action, id: string, d: Folder, e: Folder)
    requires Enabled(s, t, a) && QueueFolder(d) && QueueFolder(e) && d != e
    requires Msg(d, id) in s.files && Msg(e, id) !in s.files && Msg(e, id) in Effect(s, t, a).files
    ensures MayMove(PcOf(s, t), id, d, e) || (PcOf(s, t).Flushed? && PcOf(s, t).id == id)
              || exists g :: QueueFolder(g) && g != d && Msg(g, id) in s.files
  {
  }

  /**
   Where messages go, in every step of every run: a message changes its directory only by the thread that
   reclaims it, leases it, gives it back, or marks it, and to the directory that this calls for.
   */
  lemma MessagesMove(run: seq<Sys>, j: nat, id: string, d: Folder, e: Folder)
    requires IsRun(Next, run) && Init(run[0]) && 0 < j < |run| && QueueFolder(d) && QueueFolder(e) && d != e
    requires Msg(d, id) in run[j - 1].files && Msg(e, id) in run[j].files
    ensures SomebodyMoves(run[j - 1], id, d, e)
  {
    hide Enabled, Effect, Accounted, DeliveredWhole, HoldersKnow, LeasesApart;
    var s := run[j - 1];
    ReachableInv(run, j - 1);
    assert Next(s, run[j]);
    var t: Thread, a :| Enabled(s, t, a) && run[j] == Effect(s, t, a);
    assert Msg(e, id) !in s.files;
    MoveByStep(s, t, a, id, d, e);
    assert WriterSound(s, t);
    assert MovesOwn(s, t, id, d, e);
  }

  /** A step of markSuccess that removes this message, after a delivery of it. */
  ghost predicate RemovalOf(s: Sys, s': Sys, id: string) {
    exists t: Thread :: PcOf(s, t) == Removing(id) && s' == Effect(s, t, Remove)
                        && id in s.accepted && Delivery(id, s.accepted[id].data) in s.delivered
  }

  /** If a message has left all directories, it left by a removal of markSuccess after a delivery of it. */
  lemma {:induction false} OnlyMarkSuccessRemoves(run: seq<Sys>, i: nat, j: nat, id: string)
    requires IsRun(Next, run) && Init(run[0]) && i <= j < |run|
    requires Present(run[i].files, id) && !Present(run[j].files, id)
    ensures exists m: nat :: i < m <= j && RemovalOf(run[m - 1], run[m], id)
  {
    hide Inv, Enabled, Effect, Init, Present;
    if Present(run[j - 1].files, id) {
      ReachableInv(run, j - 1);
      assert Next(run[j - 1], run[j]);
      var t: Thread, a :| Enabled(run[j - 1], t, a) && run[j] == Effect(run[j - 1], t, a);
      OnlyRemoveRemoves(run[j - 1], t, a, id);
      assert RemovalOf(run[j - 1], run[j], id);
    } else {
      OnlyMarkSuccessRemoves(run, i, j - 1, id);
    }
  }

  /** Whatever a worker hands to the remote side is a whole accepted message. */
  lemma DeliveriesAreEnqueued(run: seq<Sys>, i: nat, d: Delivery)
    requires IsRun(Next, run) && Init(run[0]) && i < |run| && d in run[i].delivered
    ensures d.id in run[i].accepted && d.content == run[i].accepted[d.id].data
  {
    ReachableInv(run, i);
  }

  /** Two threads hold one message only after its lease ran out, that is later than 300 s after it was written. */
  lemma LeaseExclusive(run: seq<Sys>, i: nat, t: Thread, u: Thread)
    requires IsRun(Next, run) && Init(run[0]) && i < |run| && t != u
    requires Holding(PcOf(run[i], t)) && Holding(PcOf(run[i], u)) && PcOf(run[i], t).id == PcOf(run[i], u).id
    ensures PcOf(run[i], t).id in run[i].accepted
    ensures run[i].now > run[i].accepted[PcOf(run[i], t).id].written + LEASE_TIMEOUT
  {
    ReachableInv(run, i);
    assert HolderKnows(run[i], t) && LeasesDiffer(run[i], t, u);
  }

  lemma ShelvedByStep(s: Sys, t: Thread, a: Action, id: string, f: Folder)
    requires Inv(s) && Enabled(s, t, a) && (f.Failure? || f.PermanentFail?) && Msg(f, id) in s.files
    ensures Msg(f, id) in Effect(s, t, a).files && Effect(s, t, a).files[Msg(f, id)] == s.files[Msg(f, id)]
  {
    assert HolderKnows(s, t) && WriterSound(s, t);
  }

  /**
   Nothing leaves `failure` or `permanent_fail`: in every later state of every run the message lies there
   unchanged, so it is never tried again.
   */
  lemma {:induction false} ShelvedForGood(run: seq<Sys>, i: nat, j: nat, id: string, f: Folder)
    requires IsRun(Next, run) && Init(run[0]) && i <= j < |run|
    requires (f.Failure? || f.PermanentFail?) && Msg(f, id) in run[i].files
    ensures Msg(f, id) in run[j].files && run[j].files[Msg(f, id)] == run[i].files[Msg(f, id)]
  {
    hide Inv, Enabled, Effect, Init;
    if i < j {
      ShelvedForGood(run, i, j - 1, id, f);
      ReachableInv(run, j - 1);
      assert Next(run[j - 1], run[j]);
      var t: Thread, a :| Enabled(run[j - 1], t, a) && run[j] == Effect(run[j - 1], t, a);
      ShelvedByStep(run[j - 1], t, a, id, f);
    }
  }

  /** A message comes into the directories only by a publishing thread; every other step leaves it where some directory had it. */
  lemma ComesFrom(s: Sys, t: Thread, a: Action, id: string, d: Folder)
    requires Enabled(s, t, a) && QueueFolder(d) && Msg(d, id) in Effect(s, t, a).files
    ensures Present(s.files, id) || (a.Publish? && PcOf(s, t).Flushed? && PcOf(s, t).id == id)
  {
  }

  lemma RemovedByStep(s: Sys, t: Thread, a: Action, id: string)
    requires Inv(s) && Enabled(s, t, a) && id in s.accepted && !Present(s.files, id)
    ensures !Present(Effect(s, t, a).files, id)
  {
    hide Effect, Enabled, OnePlace, Faithful, Accounted, DeliveredWhole, HoldersKnow, LeasesApart;
    assert WriterSound(s, t);
    if d :| QueueFolder(d) && Msg(d, id) in Effect(s, t, a).files {
      ComesFrom(s, t, a, id, d);
    }
  }

  /** A delivered and removed message never comes back, in any later state of any run. */
  lemma {:induction false} RemovedForGood(run: seq<Sys>, i: nat, j: nat, id: string)
    requires IsRun(Next, run) && Init(run[0]) && i <= j < |run|
    requires id in run[i].accepted && !Present(run[i].files, id)
    ensures !Present(run[j].files, id)
  {
    hide Inv, Enabled, Effect, Init, Present;
    if i < j {
      RemovedForGood(run, i, j - 1, id);
      AcceptedKept(run, i, j - 1, id);
      ReachableInv(run, j - 1);
      assert Next(run[j - 1], run[j]);
      var t: Thread, a :| Enabled(run[j - 1], t, a) && run[j] == Effect(run[j - 1], t, a);
      RemovedByStep(run[j - 1], t, a, id);
    }
  }

  /** One more step of a run. */
  lemma Proceeds(s0: Sys, s: Sys, t: Thread, a: Action)
    requires Reaches(Next, s0, s) && Enabled(s, t, a)
    ensures Reaches(Next, s0, Effect(s, t, a))
  {
    assert Next(s, Effect(s, t, a));
    Extends(Next, s0, s, Effect(s, t, a));
  }

  lemma PublishedByWriter(s0: Sys, id: string, c: string) returns (s: Sys)
    requires Init(s0)
    ensures Reaches(Next, s0, s)
    ensures s == Sys(map[Msg(Active, id) := File(c, true, s0.now)], s0.now, map[0 := Published(id)], {id},
                     map[id := File(c, true, s0.now)], {})
  {
    hide Reaches, Next;
    Stays(Next, s0);
    Proceeds(s0, s0, 0, Begin(id, c));
    var s1 := Sys(map[], s0.now, map[0 := Creating(id, c)], {id}, map[], {});
    assert Effect(s0, 0, Begin(id, c)) == s1;
    Proceeds(s0, s1, 0, CreateTemp(true));
    var s2 := s1.(pcs := map[0 := Writing(id, c)], files := map[Temp(id) := File("", false, s0.now)]);
    assert Effect(s1, 0, CreateTemp(true)) == s2;
    Proceeds(s0, s2, 0, WriteTemp(|c|));
    var s3 := s1.(pcs := map[0 := Written(id, c)], files := map[Temp(id) := File(c, false, s0.now)]);
    assert Effect(s2, 0, WriteTemp(|c|)) == s3;
    Proceeds(s0, s3, 0, FlushTemp(true));
    var s4 := s1.(pcs := map[0 := Flushed(id, c)], files := map[Temp(id) := File(c, true, s0.now)]);
    assert Effect(s3, 0, FlushTemp(true)) == s4;
    Proceeds(s0, s4, 0, Publish(true));
    s := Effect(s4, 0, Publish(true));
    assert s.files == map[Msg(Active, id) := File(c, true, s0.now)];
  }

  lemma AcceptedByWriter(s0: Sys, id: string, c: string) returns (s: Sys)
    requires Init(s0)
    ensures Reaches(Next, s0, s)
    ensures s == Sys(map[Msg(Active, id) := File(c, true, s0.now)], s0.now, map[0 := Idle], {id},
                     map[id := File(c, true, s0.now)], {})
  {
    hide Reaches, Next;
    var published := PublishedByWriter(s0, id, c);
    Proceeds(s0, published, 0, Verify(true));
    s := Effect(published, 0, Verify(true));
  }

  /** From `active` a worker gets to the delivery in three steps. */
  lemma LeasedByWorker(s0: Sys, s: Sys, t: Thread, id: string, f: File) returns (s': Sys)
    requires Reaches(Next, s0, s) && PcOf(s, t).Idle? && s.files == map[Msg(Active, id) := f] && f.data != ""
    ensures Reaches(Next, s0, s')
    ensures s' == s.(files := map[Msg(Inflight, id) := f], pcs := s.pcs[t := Delivering(id, f.data)])
  {
    hide Reaches, Next;
    Proceeds(s0, s, t, See(id));
    var s1 := Effect(s, t, See(id));
    Proceeds(s0, s1, t, Lease(true));
    var s2 := Effect(s1, t, Lease(true));
    assert s2.files == map[Msg(Inflight, id) := f];
    Proceeds(s0, s2, t, Read);
    s' := Effect(s2, t, Read);
    assert s'.pcs == s.pcs[t := Delivering(id, f.data)];
  }

  /**
   Exclusive delivery does end with the lease: at every age above 300 s, any message can come to be delivered by
   two workers at once.
   */
  lemma DeliveredByTwo(s0: Sys, id: string, c: string, d: nat)
    requires Init(s0) && c != "" && d > LEASE_TIMEOUT
    ensures exists s :: && Reaches(Next, s0, s) && PcOf(s, 1) == Delivering(id, c) && PcOf(s, 2) == Delivering(id, c)
                        && id in s.accepted && s.now == s.accepted[id].written + d
  {
    hide Reaches, Next;
    var f := File(c, true, s0.now);
    var s1 := AcceptedByWriter(s0, id, c);
    var s2 := LeasedByWorker(s0, s1, 1, id, f);
    Proceeds(s0, s2, 2, Tick(d));
    var s3 := Effect(s2, 2, Tick(d));
    Proceeds(s0, s3, 2, SeeExpired(id));
    var s4 := Effect(s3, 2, SeeExpired(id));
    Proceeds(s0, s4, 2, Reclaim(true));
    var s5 := Effect(s4, 2, Reclaim(true));
    assert s5.files == map[Msg(Active, id) := f];
    var s6 := LeasedByWorker(s0, s5, 2, id, f);
    assert PcOf(s6, 1) == Delivering(id, c);
  }

  /** Two threads hold the message, `age` seconds after it was written. */
  ghost predicate HeldByTwo(s: Sys, id: string, age: int) {
    && id in s.accepted && s.now == s.accepted[id].written + age
    && exists t: Thread, u: Thread :: t != u && Holding(PcOf(s, t)) && Holding(PcOf(s, u)) && PcOf(s, t).id == PcOf(s, u).id == id
  }

  /** The lease in one statement: two holders are possible at an age exactly if it is above 300 s. */
  lemma LeaseLasts(s0: Sys, id: string, age: nat)
    requires Init(s0)
    ensures (exists s :: Reaches(Next, s0, s) && HeldByTwo(s, id, age)) <==> age > 300
  {
    hide Next, Enabled, Effect;
    if age > LEASE_TIMEOUT {
      DeliveredByTwo(s0, id, "mail", age);
      var s :| && Reaches(Next, s0, s) && PcOf(s, 1) == Delivering(id, "mail") && PcOf(s, 2) == Delivering(id, "mail")
               && id in s.accepted && s.now == s.accepted[id].written + age;
      assert HeldByTwo(s, id, age);
    }
    forall s | Reaches(Next, s0, s) && HeldByTwo(s, id, age) ensures age > LEASE_TIMEOUT {
      var run :| IsRun(Next, run) && run[0] == s0 && run[|run| - 1] == s;
      var t: Thread, u: Thread :| t != u && Holding(PcOf(s, t)) && Holding(PcOf(s, u)) && PcOf(s, t).id == PcOf(s, u).id == id;
      LeaseExclusive(run, |run| - 1, t, u);
    }
  }

  // ------------------------------------------------------------------ what the answer of enqueue means

  /** Where a message is that was accepted and has left `active`: with a worker, shelved, or delivered and removed. */
  ghost predicate LeftActive(s: Sys, id: string) {
    || Msg(Inflight, id) in s.files || Msg(Failure, id) in s.files || Msg(PermanentFail, id) in s.files
    || (!Present(s.files, id) && id in s.accepted && Delivery(id, s.accepted[id].data) in s.delivered)
  }

  /**
   The final existence test of atomicWriteFile, in every state of every run: the message it asks for is accepted
   whatever the answer, and the answer is no exactly if a worker has taken the message out of `active` meanwhile.
   */
  lemma AnswerOfVerify(run: seq<Sys>, i: nat, t: Thread, found: bool)
    requires IsRun(Next, run) && Init(run[0]) && i < |run|
    requires PcOf(run[i], t).Published? && Enabled(run[i], t, Verify(found))
    ensures var id := PcOf(run[i], t).id;
            id in run[i].accepted && (!found <==> LeftActive(run[i], id))
  {
    ReachableInv(run, i);
    assert WriterSound(run[i], t);
    var id := PcOf(run[i], t).id;
    if !found && Present(run[i].files, id) {
      var d :| QueueFolder(d) && Msg(d, id) in run[i].files;
    }
    assert found ==> Present(run[i].files, id) by { assert QueueFolder(Active); }
  }

  /** An id that some thread gave up writing, and that nobody can publish any more. */
  ghost predicate GivenUp(s: Sys, id: string) {
    && id in s.issued && id !in s.accepted
    && forall u: Thread :: Enqueuing(PcOf(s, u)) && PcOf(s, u).id == id ==> PcOf(s, u).Aborting?
  }

  lemma GivenUpByStep(s: Sys, t: Thread, a: Action, id: string)
    requires Inv(s) && Enabled(s, t, a) && GivenUp(s, id)
    ensures GivenUp(Effect(s, t, a), id)
  {
    hide OnePlace, Faithful, Accounted, DeliveredWhole, LeasesApart;
    assert WriterSound(s, t);
    HistoryGrows(s, t, a, Effect(s, t, a));
    forall u: Thread | u != t ensures PcOf(Effect(s, t, a), u) == if a.PowerLoss? then Idle else PcOf(s, u) {
      OthersStand(s, t, a, u);
    }
    assert Enqueuing(PcOf(s, t)) && PcOf(s, t).id == id ==> PcOf(s, t).Aborting?;
  }

  lemma AbortingIsGivenUp(s: Sys, t: Thread)
    requires Inv(s) && PcOf(s, t).Aborting?
    ensures GivenUp(s, PcOf(s, t).id)
  {
    assert WriterSound(s, t);
    forall u: Thread | Enqueuing(PcOf(s, u)) && PcOf(s, u).id == PcOf(s, t).id ensures PcOf(s, u).Aborting? {
      assert WritersDiffer(s, t, u);
    }
  }

  /** The other way to report a failure is honest: a message whose writing was given up is never accepted. */
  lemma {:induction false} GivenUpForGood(run: seq<Sys>, i: nat, j: nat, t: Thread)
    requires IsRun(Next, run) && Init(run[0]) && i <= j < |run| && PcOf(run[i], t).Aborting?
    ensures GivenUp(run[j], PcOf(run[i], t).id)
  {
    hide Inv, Enabled, Effect, Init, GivenUp;
    var id := PcOf(run[i], t).id;
    if i == j {
      ReachableInv(run, i);
      AbortingIsGivenUp(run[i], t);
    } else {
      GivenUpForGood(run, i, j - 1, t);
      ReachableInv(run, j - 1);
      assert Next(run[j - 1], run[j]);
      var u: Thread, a :| Enabled(run[j - 1], u, a) && run[j] == Effect(run[j - 1], u, a);
      GivenUpByStep(run[j - 1], u, a, id);
    }
  }

  /** enqueue does report a failure for accepted messages: a worker may lease any message before the final test. */
  lemma AcceptedButRefused(s0: Sys, id: string, c: string)
    requires Init(s0) && c != ""
    ensures exists s :: && Reaches(Next, s0, s) && PcOf(s, 0) == Published(id) && Enabled(s, 0, Verify(false))
                        && id in s.accepted && s.accepted[id].data == c
  {
    hide Reaches, Next;
    var published := PublishedByWriter(s0, id, c);
    var s := LeasedByWorker(s0, published, 1, id, File(c, true, s0.now));
    assert PcOf(s, 0) == Published(id) && Msg(Active, id) !in s.files;
  }
}
