/**
 The message store as a protocol: temp write, flush and rename with a crash possible at every point,
 the startup sweep, quarantine and deletion, and the 250 reply that an SMTP session gives after the
 store returned an id. A mutex lets one operation run at a time; the reply comes later.
 */
module StoreProtocol {
  import opened Disk
  import opened Runs
  import opened Strings

  /** A message belongs to one user's mailbox under one id. */
  datatype Key = Key(user: string, id: string)

  datatype Pc =
    | Idle
    | Creating(key: Key, content: string)
    | Writing(key: Key, content: string)
    | Written(key: Key, content: string)
    | Flushed(key: Key, content: string)
    | Aborting(key: Key)
    | Published(key: Key)

  /**
   `used` are the keys ever begun, `stored` what was published under each key, `returned` the keys
   whose id `store` gave back, `acked` those answered with 250, and `deleted` those that a
   deleteMessage found in INBOX.
   */
  datatype StoreState = StoreState(
    files: Files,
    pc: Pc,
    used: set<Key>,
    stored: map<Key, string>,
    returned: set<Key>,
    acked: set<Key>,
    deleted: set<Key>)

  function InboxPath(k: Key): Path { Path(Inbox(k.user), k.id, false) }

  function QuarantinePath(k: Key): Path { Path(Quarantine(k.user), k.id, false) }

  function TempPath(k: Key): Path { Path(Inbox(k.user), k.id, true) }

  datatype Action =
    | Begin(key: Key, content: string)
    | CreateTemp(ok: bool)
    | WriteTemp(count: nat)
    | FlushTemp(ok: bool)
    | Publish(ok: bool)
    | Abort(ok: bool)
    | Verify
    | Acknowledge(key: Key)
    | MoveAside(key: Key)
    | Delete(key: Key)
    | Crash(after: Files)
    | SweepOne(p: Path)

  ghost predicate Enabled(s: StoreState, a: Action) {
    match a
    case Begin(k, c) => s.pc.Idle?
    case CreateTemp(ok) => s.pc.Creating?
    case WriteTemp(n) => s.pc.Writing? && n <= |s.pc.content|
    case FlushTemp(ok) => s.pc.Written?
    case Publish(ok) => s.pc.Flushed? && (ok ==> TempPath(s.pc.key) in s.files)
    case Abort(ok) => s.pc.Aborting?
    case Verify => s.pc.Published?
    case Acknowledge(k) => k in s.returned
    case MoveAside(k) => s.pc.Idle? && InboxPath(k) in s.files
    case Delete(k) => s.pc.Idle?
    case Crash(after) => SurvivesPowerLoss(s.files, after)
    case SweepOne(p) => s.pc.Idle? && p.temp
  }

  function Effect(s: StoreState, a: Action): StoreState {
    match (a, s.pc)
    case (Begin(k, c), _) => s.(pc := Creating(k, c), used := s.used + {k})
    case (CreateTemp(ok), Creating(k, c)) =>
      if ok then s.(pc := Writing(k, c), files := s.files[TempPath(k) := File("", false, 0)]) else s.(pc := Idle)
    case (WriteTemp(n), Writing(k, c)) =>
      if n <= |c| then
        s.(pc := if n == |c| then Written(k, c) else Aborting(k), files := s.files[TempPath(k) := File(c[..n], false, 0)])
      else s
    case (FlushTemp(ok), Written(k, c)) =>
      if ok && TempPath(k) in s.files then
        s.(pc := Flushed(k, c), files := s.files[TempPath(k) := s.files[TempPath(k)].(durable := true)])
      else s.(pc := Aborting(k))
    case (Publish(ok), Flushed(k, c)) =>
      if ok && TempPath(k) in s.files then
        s.(pc := Published(k), files := Renamed(s.files, TempPath(k), InboxPath(k)), stored := s.stored[k := c])
      else s.(pc := Aborting(k))
    case (Abort(ok), Aborting(k)) => s.(pc := Idle, files := if ok then Removed(s.files, TempPath(k)) else s.files)
    case (Verify, Published(k)) =>
      s.(pc := Idle, returned := if InboxPath(k) in s.files then s.returned + {k} else s.returned)
    case (Acknowledge(k), _) => s.(acked := s.acked + {k})
    case (MoveAside(k), _) =>
      if InboxPath(k) in s.files then s.(files := Renamed(s.files, InboxPath(k), QuarantinePath(k))) else s
    case (Delete(k), _) =>
      s.(files := Removed(s.files, InboxPath(k)),
         deleted := if InboxPath(k) in s.files then s.deleted + {k} else s.deleted)
    case (Crash(after), _) => s.(files := after, pc := Idle)
    case (SweepOne(p), _) => if p.temp then s.(files := Removed(s.files, p)) else s
    case _ => s
  }

  /** Every step there is. */
  ghost predicate AnyNext(s: StoreState, s': StoreState) {
    exists a :: Enabled(s, a) && s' == Effect(s, a)
  }

  /** Every step, with ids never used twice for one user. */
  ghost predicate Next(s: StoreState, s': StoreState) {
    exists a :: Enabled(s, a) && Fresh(s, a) && s' == Effect(s, a)
  }

  ghost predicate Fresh(s: StoreState, a: Action) {
    a.Begin? ==> a.key !in s.used
  }

  ghost predicate Init(s: StoreState) {
    s.files == map[] && s.pc.Idle? && s.used == {} && s.stored == map[] && s.returned == {} && s.acked == {} && s.deleted == {}
  }

  ghost predicate WholeAt(s: StoreState, p: Path, k: Key) {
    p in s.files && k in s.stored && s.files[p].data == s.stored[k] && s.files[p].durable
  }

  /** Whole in INBOX or in Quarantine. */
  ghost predicate Whole(s: StoreState, k: Key) {
    WholeAt(s, InboxPath(k), k) || WholeAt(s, QuarantinePath(k), k)
  }

  /** No final path ever shows anything but a complete flushed message. */
  ghost predicate FinalsComplete(s: StoreState) {
    forall p :: p in s.files && !p.temp ==>
      && (p.folder.Inbox? || p.folder.Quarantine?)
      && WholeAt(s, p, Key(p.folder.user, p.name))
  }

  ghost predicate NothingLost(s: StoreState) {
    forall k :: k in s.stored && k !in s.deleted ==> Whole(s, k)
  }

  ghost predicate HistoryOrdered(s: StoreState) {
    && s.acked <= s.returned
    && (forall k :: k in s.returned ==> k in s.stored)
    && (forall k :: k in s.stored || k in s.deleted ==> k in s.used)
  }

  /** The message being written is new, and its temp file is what the operation believes it to be. */
  ghost predicate WriterSound(s: StoreState) {
    && (!s.pc.Idle? ==> s.pc.key in s.used)
    && (!s.pc.Idle? && !s.pc.Published? ==> s.pc.key !in s.stored && s.pc.key !in s.deleted)
    && (s.pc.Published? ==> s.pc.key in s.stored)
    && (s.pc.Written? ==> TempPath(s.pc.key) in s.files && s.files[TempPath(s.pc.key)].data == s.pc.content)
    && (s.pc.Flushed? ==>
         && TempPath(s.pc.key) in s.files
         && s.files[TempPath(s.pc.key)].data == s.pc.content
         && s.files[TempPath(s.pc.key)].durable)
  }

  ghost predicate Inv(s: StoreState) {
    FinalsComplete(s) && NothingLost(s) && HistoryOrdered(s) && WriterSound(s)
  }

  lemma FinalsCompleteKept(s: StoreState, a: Action)
    requires FinalsComplete(s) && WriterSound(s) && Enabled(s, a) && Fresh(s, a)
    ensures FinalsComplete(Effect(s, a))
  {
  }

  lemma StoredGrows(s: StoreState, a: Action)
    requires WriterSound(s) && Enabled(s, a)
    ensures forall k :: k in s.stored ==> k in Effect(s, a).stored && Effect(s, a).stored[k] == s.stored[k]
  {
  }

  lemma WholeKept(s: StoreState, a: Action, k: Key)
    requires Inv(s) && Enabled(s, a) && Fresh(s, a) && Whole(s, k)
    ensures Whole(Effect(s, a), k) || a == Delete(k)
  {
    StoredGrows(s, a);
  }

  lemma NothingLostKept(s: StoreState, a: Action)
    requires Inv(s) && Enabled(s, a) && Fresh(s, a)
    ensures NothingLost(Effect(s, a))
  {
    var s' := Effect(s, a);
    forall k | k in s'.stored && k !in s'.deleted ensures Whole(s', k) {
      if k in s.stored {
        assert Whole(s, k);
        WholeKept(s, a, k);
      }
    }
  }

  lemma HistoryKept(s: StoreState, a: Action)
    requires HistoryOrdered(s) && FinalsComplete(s) && WriterSound(s) && Enabled(s, a) && Fresh(s, a)
    ensures HistoryOrdered(Effect(s, a))
  {
  }

  lemma WriterSoundKept(s: StoreState, a: Action)
    requires WriterSound(s) && HistoryOrdered(s) && Enabled(s, a) && Fresh(s, a)
    ensures WriterSound(Effect(s, a))
  {
  }

  lemma StepKeepsInv(s: StoreState, a: Action)
    requires Inv(s) && Enabled(s, a) && Fresh(s, a)
    ensures Inv(Effect(s, a))
  {
    FinalsCompleteKept(s, a);
    NothingLostKept(s, a);
    HistoryKept(s, a);
    WriterSoundKept(s, a);
  }

  lemma ReachableInv(run: seq<StoreState>, i: nat)
    requires IsRun(Next, run) && Init(run[0]) && i < |run|
    ensures Inv(run[i])
  {
    forall s, s' | Inv(s) && Next(s, s') ensures Inv(s') {
      var a :| Enabled(s, a) && Fresh(s, a) && s' == Effect(s, a);
      StepKeepsInv(s, a);
    }
    Always(Next, Inv, run, i);
  }

  lemma {:induction false} StoredStays(run: seq<StoreState>, i: nat, j: nat, k: Key)
    requires IsRun(Next, run) && Init(run[0]) && i <= j < |run| && k in run[i].stored
    ensures k in run[j].stored && run[j].stored[k] == run[i].stored[k]
  {
    hide Effect, Enabled, WriterSound, FinalsComplete, NothingLost, HistoryOrdered, Init;
    if i < j {
      StoredStays(run, i, j - 1, k);
      ReachableInv(run, j - 1);
      assert Next(run[j - 1], run[j]);
      var a :| Enabled(run[j - 1], a) && Fresh(run[j - 1], a) && run[j] == Effect(run[j - 1], a);
      StoredGrows(run[j - 1], a);
    }
  }

  /**
   A message answered with 250 survives: in every later state of every run, across crashes and
   sweeps at any point, it is still there whole, in INBOX or in Quarantine, unless deleteMessage
   found it in INBOX.
   */
  lemma AcknowledgedKept(run: seq<StoreState>, i: nat, j: nat, k: Key)
    requires IsRun(Next, run) && Init(run[0]) && i <= j < |run| && k in run[i].acked
    ensures k in run[i].stored && k in run[j].stored && run[j].stored[k] == run[i].stored[k]
    ensures k in run[j].deleted || Whole(run[j], k)
  {
    ReachableInv(run, i);
    StoredStays(run, i, j, k);
    ReachableInv(run, j);
  }

  /** Whatever a crash leaves at a final path is a complete message that was stored under that very path. */
  lemma CrashShowsWholeFiles(run: seq<StoreState>, i: nat, after: Files, p: Path)
    requires IsRun(Next, run) && Init(run[0]) && i < |run|
    requires SurvivesPowerLoss(run[i].files, after) && p in Swept(after)
    ensures !p.temp && p in run[i].files && after[p] == run[i].files[p]
    ensures (p.folder.Inbox? || p.folder.Quarantine?) && Key(p.folder.user, p.name) in run[i].stored
    ensures after[p].data == run[i].stored[Key(p.folder.user, p.name)]
  {
    ReachableInv(run, i);
  }

  lemma OnlyDeleteByStep(s: StoreState, a: Action, k: Key)
    requires Inv(s) && Enabled(s, a) && Fresh(s, a) && Whole(s, k) && !Whole(Effect(s, a), k)
    ensures a == Delete(k) && InboxPath(k) in s.files
  {
    StepKeepsInv(s, a);
  }

  ghost predicate DeletionOf(s: StoreState, s': StoreState, k: Key) {
    InboxPath(k) in s.files && s' == Effect(s, Delete(k))
  }

  /** If a stored message is gone, a deleteMessage found it in INBOX. */
  lemma {:induction false} OnlyDeleteRemoves(run: seq<StoreState>, i: nat, j: nat, k: Key)
    requires IsRun(Next, run) && Init(run[0]) && i <= j < |run| && Whole(run[i], k) && !Whole(run[j], k)
    ensures exists m: nat :: i < m <= j && DeletionOf(run[m - 1], run[m], k)
  {
    hide Inv, Enabled, Effect, Init, Whole;
    if Whole(run[j - 1], k) {
      ReachableInv(run, j - 1);
      assert Next(run[j - 1], run[j]);
      var a :| Enabled(run[j - 1], a) && Fresh(run[j - 1], a) && run[j] == Effect(run[j - 1], a);
      OnlyDeleteByStep(run[j - 1], a, k);
      assert DeletionOf(run[j - 1], run[j], k);
    } else {
      OnlyDeleteRemoves(run, i, j - 1, k);
    }
  }

  lemma QuarantineByStep(s: StoreState, a: Action, k: Key)
    requires Inv(s) && Enabled(s, a) && Fresh(s, a) && QuarantinePath(k) in s.files
    ensures QuarantinePath(k) in Effect(s, a).files
    ensures Effect(s, a).files[QuarantinePath(k)].data == s.files[QuarantinePath(k)].data
  {
    assert WholeAt(s, QuarantinePath(k), k);
  }

  /** A quarantined message is in Quarantine in every later state of every run: deleteMessage looks in INBOX only. */
  lemma {:induction false} QuarantineIsForever(run: seq<StoreState>, i: nat, j: nat, k: Key)
    requires IsRun(Next, run) && Init(run[0]) && i <= j < |run| && QuarantinePath(k) in run[i].files
    ensures QuarantinePath(k) in run[j].files
    ensures run[j].files[QuarantinePath(k)].data == run[i].files[QuarantinePath(k)].data
  {
    hide Inv, Enabled, Effect, Init;
    if i < j {
      QuarantineIsForever(run, i, j - 1, k);
      ReachableInv(run, j - 1);
      assert Next(run[j - 1], run[j]);
      var a :| Enabled(run[j - 1], a) && Fresh(run[j - 1], a) && run[j] == Effect(run[j - 1], a);
      QuarantineByStep(run[j - 1], a, k);
    }
  }

  // ------------------------------------------------------------------ whether or not ids are fresh

  /** Final files are flushed, and the temp file of the operation under way is what the operation believes it to be. */
  ghost predicate Solid(s: StoreState) {
    && (forall p :: p in s.files && !p.temp ==> s.files[p].durable)
    && (s.pc.Written? ==> TempPath(s.pc.key) in s.files && s.files[TempPath(s.pc.key)].data == s.pc.content)
    && (s.pc.Flushed? ==>
         && TempPath(s.pc.key) in s.files
         && s.files[TempPath(s.pc.key)].data == s.pc.content
         && s.files[TempPath(s.pc.key)].durable)
  }

  lemma StepKeepsSolid(s: StoreState, a: Action)
    requires Solid(s) && Enabled(s, a)
    ensures Solid(Effect(s, a))
  {
  }

  lemma ReachableSolid(run: seq<StoreState>, i: nat)
    requires IsRun(AnyNext, run) && Init(run[0]) && i < |run|
    ensures Solid(run[i])
  {
    forall s, s' | Solid(s) && AnyNext(s, s') ensures Solid(s') {
      var a :| Enabled(s, a) && s' == Effect(s, a);
      StepKeepsSolid(s, a);
    }
    Always(AnyNext, Solid, run, i);
  }

  /** With any ids: a crash at any point followed by the sweep leaves every final path exactly as it was, and nothing else. */
  lemma CrashKeepsFinals(run: seq<StoreState>, i: nat, after: Files, p: Path)
    requires IsRun(AnyNext, run) && Init(run[0]) && i < |run| && SurvivesPowerLoss(run[i].files, after)
    ensures p in Swept(after) <==> !p.temp && p in run[i].files
    ensures p in Swept(after) ==> Swept(after)[p] == run[i].files[p]
  {
    ReachableSolid(run, i);
  }

  /** How a step may treat a final path: not at all, a whole new message by a rename, or a move or deletion of the whole file. */
  ghost predicate OldOrNew(s: StoreState, s': StoreState, p: Path) {
    || ((p in s'.files <==> p in s.files) && (p in s.files ==> s'.files[p] == s.files[p]))
    || (s.pc.Flushed? && p == InboxPath(s.pc.key) && p in s'.files && s'.files[p].data == s.pc.content && s'.files[p].durable)
    || (exists k :: p == InboxPath(k) && p in s.files && p !in s'.files)
    || (exists k :: p == QuarantinePath(k) && InboxPath(k) in s.files && p in s'.files && s'.files[p] == s.files[InboxPath(k)])
  }

  /** With any ids: a final path holds its complete old content or a complete new one, after every step of every run. */
  lemma FinalsChangeWhole(run: seq<StoreState>, i: nat, p: Path)
    requires IsRun(AnyNext, run) && Init(run[0]) && 0 < i < |run| && !p.temp
    ensures OldOrNew(run[i - 1], run[i], p)
  {
    ReachableSolid(run, i - 1);
    assert AnyNext(run[i - 1], run[i]);
    ghost var s := run[i - 1];
    var a :| Enabled(s, a) && run[i] == Effect(s, a);
    match a
    case Crash(after) =>
    case MoveAside(k) => assert InboxPath(k) in s.files;
    case Delete(k) =>
    case _ =>
  }

  /**
   Without fresh ids, publishing over an existing message loses it exactly when it was still in
   INBOX only and differed from the new one.
   */
  lemma CollisionLosesMessage(s: StoreState, k: Key, j: Key)
    requires s.pc.Flushed? && s.pc.key == k && TempPath(k) in s.files
    requires s.files[TempPath(k)].data == s.pc.content && s.files[TempPath(k)].durable
    requires Whole(s, j)
    ensures
      var s' := Effect(s, Publish(true));
      (exists p :: (p == InboxPath(j) || p == QuarantinePath(j)) && p in s'.files && s'.files[p].durable && s'.files[p].data == s.stored[j])
      <==> j != k || WholeAt(s, QuarantinePath(j), j) || s.pc.content == s.stored[j]
  {
    var s' := Effect(s, Publish(true));
    assert InboxPath(j) in s'.files || QuarantinePath(j) in s'.files;
    if j != k || WholeAt(s, QuarantinePath(j), j) || s.pc.content == s.stored[j] {
      var p := if j == k && s.pc.content == s.stored[j] then InboxPath(j)
               else if WholeAt(s, QuarantinePath(j), j) then QuarantinePath(j) else InboxPath(j);
      assert p in s'.files && s'.files[p].durable && s'.files[p].data == s.stored[j];
    }
  }

  lemma Goes(s0: StoreState, s: StoreState, a: Action) returns (s': StoreState)
    requires Reaches(AnyNext, s0, s) && Enabled(s, a)
    ensures s' == Effect(s, a) && Reaches(AnyNext, s0, s')
  {
    s' := Effect(s, a);
    assert AnyNext(s, s');
    Extends(AnyNext, s0, s, s');
  }

  /** A whole undisturbed store under a key, from an idle state without a temp file of that key. */
  lemma Stores(s0: StoreState, s: StoreState, k: Key, c: string) returns (s': StoreState)
    requires Reaches(AnyNext, s0, s) && s.pc.Idle? && TempPath(k) !in s.files
    ensures Reaches(AnyNext, s0, s')
    ensures s' == s.(used := s.used + {k}, files := s.files[InboxPath(k) := File(c, true, 0)],
                     stored := s.stored[k := c], returned := s.returned + {k})
  {
    hide Reaches, AnyNext;
    var s1 := Goes(s0, s, Begin(k, c));
    var s2 := Goes(s0, s1, CreateTemp(true));
    var s3 := Goes(s0, s2, WriteTemp(|c|));
    assert c[..|c|] == c;
    var s4 := Goes(s0, s3, FlushTemp(true));
    var s5 := Goes(s0, s4, Publish(true));
    assert s5.files == s.files[InboxPath(k) := File(c, true, 0)];
    s' := Goes(s0, s5, Verify);
  }

  /**
   Two equal clock readings for one user do lose a message that was answered with 250: for any two different
   messages the first is acknowledged and whole, then the second is stored, and no file has the first one's text.
   */
  lemma AcknowledgedLost(user: string, ms: nat, first: string, second: string)
    requires first != second
    ensures exists s0, s1, s2, k ::
              && k == Key(user, Decimal(ms)) && Init(s0) && Reaches(AnyNext, s0, s1) && Reaches(AnyNext, s1, s2)
              && k in s1.acked && WholeAt(s1, InboxPath(k), k) && s1.stored[k] == first
              && k in s2.acked && s2.deleted == {} && forall p :: p in s2.files ==> s2.files[p].data != first
  {
    hide Reaches, AnyNext;
    var k := Key(user, Decimal(ms));
    var s0 := StoreState(map[], Idle, {}, map[], {}, {}, {});
    Stays(AnyNext, s0);
    var one := Stores(s0, s0, k, first);
    var s1 := Goes(s0, one, Acknowledge(k));
    Stays(AnyNext, s1);
    var s2 := Stores(s1, s1, k, second);
    assert Init(s0) && WholeAt(s1, InboxPath(k), k);
  }

  /** The ids are decimal clock readings in milliseconds: they tell the reading, and so collide exactly when the readings do. */
  lemma IdsCollide(ms1: nat, ms2: nat)
    ensures Value(Decimal(ms1)) == ms1 && (Decimal(ms1) == Decimal(ms2) <==> ms1 == ms2)
  {
    DecimalRead(ms1);
    DecimalInjective(ms1, ms2);
  }
}
