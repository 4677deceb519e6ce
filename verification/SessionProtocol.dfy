/**
 Sessions under concurrency: createSession, validateSession and invalidateSession of a healthy manager take
 the mutex once for the store and once for the cache, and between two locked sections other calls may run.
 Each locked section is one step here, with the clock reading of its own.
 */
module SessionProtocol {
  import opened Options
  import opened Runs
  import opened SessionCache
  import opened Strings

  type Thread = nat

  /** Where a call stands between two locked sections. */
  datatype Pc =
    | Idle
    | Creating(id: string, value: string)                // createSession: nothing written yet
    | Stored(id: string, value: string, expiry: int)     // ... the store has it, the cache not yet
    | Missed(id: string)                                 // validateSession: the cache did not answer
    | Filling(id: string, value: string)                 // ... the store did, and the cache is to have it
    | Forgetting(id: string)                             // invalidateSession: gone from the store

  /**
   Times are in seconds. `issued`, `returned` and `revoked` are history: the ids drawn, those that createSession returned, and those
   for which invalidateSession returned.
   */
  datatype Sys = Sys(
    store: map<string, Entry>,
    cache: map<string, Entry>,
    now: int,
    pcs: map<Thread, Pc>,
    issued: set<string>,
    returned: set<string>,
    revoked: set<string>)

  function PcOf(s: Sys, t: Thread): Pc {
    if t in s.pcs then s.pcs[t] else Idle
  }

  /** What the cache lookup of validateSession accepts. */
  predicate CacheAnswers(s: Sys, id: string) {
    id in s.cache && s.now <= s.cache[id].expiry && s.cache[id].value != "" && Prefix(s.cache[id].value).Some?
  }

  predicate HasUser(value: string) {
    Prefix(value).Some? && Prefix(value).value != ""
  }

  predicate StoreAnswers(s: Sys, id: string) {
    id in s.store && s.now <= s.store[id].expiry && HasUser(s.store[id].value)
  }

  /** The time to live is what two readings of the calendar clock leave of the session timeout. */
  datatype Action =
    | Begin(id: string, user: string, info: string)
    | Store(ttl: nat)
    | Cache(ttl: nat)
    | Lookup(id: string)
    | Read
    | Fill
    | Delete(id: string)
    | Forget
    | Clean
    | Tick(d: nat)

  ghost predicate Enabled(s: Sys, t: Thread, a: Action) {
    var pc := PcOf(s, t);
    match a
    case Begin(id, user, info) => pc.Idle? && id !in s.issued && id != "" && user != ""
    case Store(ttl) => pc.Creating?
    case Cache(ttl) => pc.Stored?
    case Lookup(id) => pc.Idle? && id != ""
    case Read => pc.Missed?
    case Fill => pc.Filling?
    case Delete(id) => pc.Idle? && id != ""
    case Forget => pc.Forgetting?
    case Clean => true
    case Tick(d) => true
  }

  function Goto(s: Sys, t: Thread, pc: Pc): Sys {
    s.(pcs := s.pcs[t := pc])
  }

  function Unexpired(entries: map<string, Entry>, now: int): map<string, Entry> {
    map id | id in entries && now <= entries[id].expiry :: entries[id]
  }

  function Effect(s: Sys, t: Thread, a: Action): Sys {
    match (a, PcOf(s, t))
    case (Begin(id, user, info), _) => Goto(s, t, Creating(id, user + ":" + info)).(issued := s.issued + {id})
    case (Store(ttl), Creating(id, v)) =>
      Goto(s, t, Stored(id, v, s.now + ttl)).(store := s.store[id := Entry(v, s.now + ttl)])
    case (Cache(ttl), Stored(id, v, _)) =>
      Goto(s, t, Idle).(cache := s.cache[id := Entry(v, s.now + ttl)], returned := s.returned + {id})
    case (Lookup(id), _) => Goto(s, t, if CacheAnswers(s, id) then Idle else Missed(id))
    case (Read, Missed(id)) => Goto(s, t, if StoreAnswers(s, id) then Filling(id, s.store[id].value) else Idle)
    case (Fill, Filling(id, v)) => Goto(s, t, Idle).(cache := s.cache[id := Entry(v, s.now + CACHE_TTL)])
    case (Delete(id), _) => Goto(s, t, Forgetting(id)).(store := s.store - {id})
    case (Forget, Forgetting(id)) => Goto(s, t, Idle).(cache := s.cache - {id}, revoked := s.revoked + {id})
    case (Clean, _) => s.(store := Unexpired(s.store, s.now), cache := Unexpired(s.cache, s.now))
    case (Tick(d), _) => s.(now := s.now + d)
    case _ => s
  }

  ghost predicate Next(s: Sys, s': Sys) {
    exists t, a :: Enabled(s, t, a) && s' == Effect(s, t, a)
  }

  ghost predicate Init(s: Sys) {
    s.store == map[] && s.cache == map[] && s.pcs == map[] && s.issued == {} && s.returned == {} && s.revoked == {}
  }

  /** Whether a call of validateSession that begins now and is not disturbed accepts the session. */
  predicate Accepted(s: Sys, id: string) {
    CacheAnswers(s, id) || StoreAnswers(s, id)
  }

  lemma OthersStand(s: Sys, t: Thread, a: Action, u: Thread)
    requires u != t
    ensures PcOf(Effect(s, t, a), u) == PcOf(s, u)
  {
  }

  // ------------------------------------------------------------------ one call is its sections

  /** The tables of the manager, read by session id. */
  ghost predicate Shows(m: Auth, s: Sys) {
    forall id :: ShowsOne(m, s, id)
  }

  ghost predicate ShowsOne(m: Auth, s: Sys, id: string) {
    var key := SessionKey(m, id);
    && (key in m.sessions <==> id in s.store) && (id in s.store ==> s.store[id] == m.sessions[key])
    && (key in m.cache <==> id in s.cache) && (key in m.cacheExpiry <==> id in s.cache)
    && (id in s.cache ==> s.cache[id] == Entry(m.cache[key], m.cacheExpiry[key]))
  }

  lemma CreatedInSections(m: Auth, s: Sys, t: Thread, id: string, user: string, info: string, ttl: nat)
    requires m.healthy && Shows(m, s) && Enabled(s, t, Begin(id, user, info))
    ensures var s1 := Effect(s, t, Begin(id, user, info));
            var s2 := Effect(s1, t, Store(ttl));
            Enabled(s1, t, Store(ttl)) && Enabled(s2, t, Cache(ttl))
            && Shows(After(m, Create(id, user, info, s.now), ttl), Effect(s2, t, Cache(ttl)))
  {
    var s3 := Effect(Effect(Effect(s, t, Begin(id, user, info)), t, Store(ttl)), t, Cache(ttl));
    var m' := After(m, Create(id, user, info, s.now), ttl);
    forall x ensures ShowsOne(m', s3, x) {
      assert ShowsOne(m, s, x);
      SessionKeysApart(m, x, id);
    }
  }

  lemma InvalidatedInSections(m: Auth, s: Sys, t: Thread, id: string, timeout: nat)
    requires m.healthy && Shows(m, s) && Enabled(s, t, Delete(id))
    ensures var s1 := Effect(s, t, Delete(id));
            Enabled(s1, t, Forget) && Shows(After(m, Invalidate(id), timeout), Effect(s1, t, Forget))
  {
    var s2 := Effect(Effect(s, t, Delete(id)), t, Forget);
    forall x ensures ShowsOne(After(m, Invalidate(id), timeout), s2, x) {
      assert ShowsOne(m, s, x);
      SessionKeysApart(m, x, id);
    }
  }

  /** validateSession: one section when the cache answers, two when nobody does, three when the store does. */
  lemma ValidatedInSections(m: Auth, s: Sys, t: Thread, id: string)
    requires m.healthy && Shows(m, s) && Enabled(s, t, Lookup(id))
    ensures Validated(m, id, s.now).0.Some? <==> Accepted(s, id)
    ensures var s1 := Effect(s, t, Lookup(id));
            var s2 := if PcOf(s1, t).Missed? then Effect(s1, t, Read) else s1;
            var s3 := if PcOf(s2, t).Filling? then Effect(s2, t, Fill) else s2;
            PcOf(s3, t).Idle? && Shows(Validated(m, id, s.now).1, s3)
  {
    assert ShowsOne(m, s, id);
    var s1 := Effect(s, t, Lookup(id));
    var s2 := if PcOf(s1, t).Missed? then Effect(s1, t, Read) else s1;
    var s3 := if PcOf(s2, t).Filling? then Effect(s2, t, Fill) else s2;
    forall x ensures ShowsOne(Validated(m, id, s.now).1, s3, x) {
      assert ShowsOne(m, s, x);
      SessionKeysApart(m, x, id);
    }
  }

  // ------------------------------------------------------------------ a session that is gone

  /** No call is about to write the session. */
  ghost predicate NobodyWrites(s: Sys, id: string) {
    forall t: Thread :: !WritesSoon(PcOf(s, t), id)
  }

  predicate WritesSoon(pc: Pc, id: string) {
    (pc.Creating? || pc.Stored? || pc.Filling?) && pc.id == id
  }

  ghost predicate Gone(s: Sys, id: string) {
    id in s.issued && id !in s.store && id !in s.cache && NobodyWrites(s, id)
  }

  lemma GoneByStep(s: Sys, t: Thread, a: Action, id: string)
    requires Gone(s, id) && Enabled(s, t, a)
    ensures Gone(Effect(s, t, a), id)
  {
    var s' := Effect(s, t, a);
    assert !WritesSoon(PcOf(s, t), id);
    forall u: Thread ensures !WritesSoon(PcOf(s', u), id) {
      if u != t { OthersStand(s, t, a, u); }
    }
  }

  lemma GoneForGood(s: Sys, s': Sys, id: string)
    requires Gone(s, id) && Reaches(Next, s, s')
    ensures Gone(s', id)
  {
    hide Gone, Enabled, Effect;
    var inv := (x: Sys) => Gone(x, id);
    forall x, y | inv(x) && Next(x, y) ensures inv(y) {
      var t: Thread, a :| Enabled(x, t, a) && y == Effect(x, t, a);
      GoneByStep(x, t, a, id);
    }
    ReachesKeeps(Next, inv, s, s');
  }

  /** A call that fills the cache does so with a user that the store named. */
  ghost predicate FillersKnow(s: Sys) {
    forall t: Thread :: FillerKnows(PcOf(s, t))
  }

  predicate FillerKnows(pc: Pc) {
    pc.Filling? ==> HasUser(pc.value) && pc.value != ""
  }

  lemma FillersKnowKept(s: Sys, t: Thread, a: Action)
    requires FillersKnow(s)
    ensures FillersKnow(Effect(s, t, a))
  {
    var s' := Effect(s, t, a);
    assert FillerKnows(PcOf(s, t));
    assert forall v :: HasUser(v) ==> v != "";
    forall u: Thread ensures FillerKnows(PcOf(s', u)) {
      if u != t { OthersStand(s, t, a, u); assert FillerKnows(PcOf(s, u)); }
    }
  }

  lemma ReachableFillersKnow(run: seq<Sys>, i: nat)
    requires IsRun(Next, run) && Init(run[0]) && i < |run|
    ensures FillersKnow(run[i])
  {
    forall s, s' | FillersKnow(s) && Next(s, s') ensures FillersKnow(s') {
      var t: Thread, a :| Enabled(s, t, a) && s' == Effect(s, t, a);
      FillersKnowKept(s, t, a);
    }
    Always(Next, FillersKnow, run, i);
  }

  /**
   When a session that is not being created is in neither table, as invalidateSession leaves it, it is accepted
   again in some later state exactly if a validation has read it from the store and has not cached it yet.
   */
  lemma ComesBackExactly(run: seq<Sys>, i: nat, id: string)
    requires IsRun(Next, run) && Init(run[0]) && i < |run|
    requires id in run[i].issued && id !in run[i].store && id !in run[i].cache
    requires forall t: Thread :: WritesSoon(PcOf(run[i], t), id) ==> PcOf(run[i], t).Filling?
    ensures (exists s :: Reaches(Next, run[i], s) && Accepted(s, id))
            <==> exists t: Thread :: PcOf(run[i], t).Filling? && PcOf(run[i], t).id == id
  {
    var now := run[i];
    if t: Thread :| PcOf(now, t).Filling? && PcOf(now, t).id == id {
      ReachableFillersKnow(run, i);
      assert FillerKnows(PcOf(now, t));
      var s := Effect(now, t, Fill);
      Stays(Next, now);
      assert Next(now, s) by { assert Enabled(now, t, Fill); }
      Extends(Next, now, now, s);
      assert Accepted(s, id);
    } else {
      assert Gone(now, id);
      forall s | Reaches(Next, now, s) ensures !Accepted(s, id) {
        GoneForGood(now, s, id);
      }
    }
  }

  // ------------------------------------------------------------------ when invalidation is final

  /**
   Callers use only ids that createSession returned; unless `early`, the cache entry of a new session expires
   no earlier than its store entry.
   */
  ghost predicate Careful(early: bool, s: Sys, t: Thread, a: Action) {
    match a
    case Lookup(id) => id in s.returned
    case Delete(id) => id in s.returned
    case Cache(ttl) => early || (PcOf(s, t).Stored? ==> s.now + ttl >= PcOf(s, t).expiry)
    case _ => true
  }

  ghost function CarefulNext(early: bool): (Sys, Sys) -> bool {
    (s, s') => exists t: Thread, a: Action :: Careful(early, s, t, a) && Enabled(s, t, a) && s' == Effect(s, t, a)
  }

  /** A returned session in the store is in the cache at least as long, in a form that the cache accepts. */
  ghost predicate Covered(s: Sys, id: string) {
    id in s.store && id in s.returned ==>
      && id in s.cache && s.cache[id].expiry >= s.store[id].expiry
      && s.cache[id].value != "" && Prefix(s.cache[id].value).Some?
  }

  ghost predicate RevokedIsGone(s: Sys, id: string) {
    id in s.revoked ==> id in s.returned && id !in s.store && id !in s.cache
  }

  ghost predicate CallSound(s: Sys, t: Thread) {
    var pc := PcOf(s, t);
    match pc
    case Idle => true
    case Creating(id, v) => id in s.issued && id !in s.returned && id !in s.store && v != "" && Prefix(v).Some?
    case Stored(id, v, e) =>
      id in s.issued && id !in s.returned && v != "" && Prefix(v).Some? && (id in s.store ==> s.store[id].expiry == e)
    case Missed(id) => id in s.returned && (id in s.store ==> s.now > s.store[id].expiry)
    case Filling(_, _) => false
    case Forgetting(id) => id in s.returned && id !in s.store
  }

  predicate Creates(pc: Pc) { pc.Creating? || pc.Stored? }

  ghost predicate CreatorsDiffer(s: Sys, t: Thread, u: Thread) {
    Creates(PcOf(s, t)) && Creates(PcOf(s, u)) && PcOf(s, t).id == PcOf(s, u).id ==> t == u
  }

  ghost predicate Inv(s: Sys) {
    && s.returned <= s.issued && s.store.Keys <= s.issued
    && (forall id :: Covered(s, id) && RevokedIsGone(s, id))
    && (forall t :: CallSound(s, t))
    && (forall t, u :: CreatorsDiffer(s, t, u))
  }

  lemma TablesKept(s: Sys, t: Thread, a: Action, id: string)
    requires Inv(s) && Careful(false, s, t, a) && Enabled(s, t, a)
    ensures Covered(Effect(s, t, a), id) && RevokedIsGone(Effect(s, t, a), id)
  {
    assert CallSound(s, t) && Covered(s, id) && RevokedIsGone(s, id);
  }

  lemma CallSoundHere(s: Sys, t: Thread, a: Action)
    requires Inv(s) && Careful(false, s, t, a) && Enabled(s, t, a)
    ensures CallSound(Effect(s, t, a), t)
  {
    assert CallSound(s, t);
    match a
    case Begin(id, user, info) => ColonThere(user, info);
    case Lookup(id) => assert Covered(s, id);
    case _ =>
  }

  lemma ColonThere(user: string, info: string)
    ensures user + ":" + info != "" && Prefix(user + ":" + info).Some?
  {
    var v := user + ":" + info;
    assert v[|user|] == ':';
    FindChar(v, ':', 0);
  }

  lemma CallSoundElsewhere(s: Sys, t: Thread, a: Action, u: Thread)
    requires Inv(s) && Careful(false, s, t, a) && Enabled(s, t, a) && u != t
    ensures CallSound(Effect(s, t, a), u)
  {
    assert CallSound(s, t) && CallSound(s, u) && CreatorsDiffer(s, t, u);
    OthersStand(s, t, a, u);
  }

  lemma CreatorsDifferKept(s: Sys, t: Thread, a: Action, u: Thread, v: Thread)
    requires Inv(s) && Enabled(s, t, a)
    ensures CreatorsDiffer(Effect(s, t, a), u, v)
  {
    assert CallSound(s, u) && CallSound(s, v) && CallSound(s, t) && CreatorsDiffer(s, u, v);
    if u != t { OthersStand(s, t, a, u); }
    if v != t { OthersStand(s, t, a, v); }
  }

  lemma CarefulStepKeepsInv(s: Sys, t: Thread, a: Action)
    requires Inv(s) && Careful(false, s, t, a) && Enabled(s, t, a)
    ensures Inv(Effect(s, t, a))
  {
    var s' := Effect(s, t, a);
    assert s'.returned <= s'.issued && s'.store.Keys <= s'.issued by { assert CallSound(s, t); }
    forall id ensures Covered(s', id) && RevokedIsGone(s', id) { TablesKept(s, t, a, id); }
    forall u: Thread ensures CallSound(s', u) {
      if u == t { CallSoundHere(s, t, a); } else { CallSoundElsewhere(s, t, a, u); }
    }
    forall u: Thread, v: Thread ensures CreatorsDiffer(s', u, v) { CreatorsDifferKept(s, t, a, u, v); }
  }

  lemma CarefulReachableInv(run: seq<Sys>, i: nat)
    requires IsRun(CarefulNext(false), run) && Init(run[0]) && i < |run|
    ensures Inv(run[i])
  {
    hide Enabled, Effect, Careful;
    forall s, s' | Inv(s) && CarefulNext(false)(s, s') ensures Inv(s') {
      var t: Thread, a: Action :| Careful(false, s, t, a) && Enabled(s, t, a) && s' == Effect(s, t, a);
      CarefulStepKeepsInv(s, t, a);
    }
    Always(CarefulNext(false), Inv, run, i);
  }

  lemma Proceeds(s0: Sys, s: Sys, t: Thread, a: Action) returns (s': Sys)
    requires Reaches(CarefulNext(true), s0, s) && Careful(true, s, t, a) && Enabled(s, t, a)
    ensures s' == Effect(s, t, a) && Reaches(CarefulNext(true), s0, s')
  {
    s' := Effect(s, t, a);
    assert CarefulNext(true)(s, s');
    Extends(CarefulNext(true), s0, s, s');
  }

  /**
   A session whose cache entry is the first to expire comes back: a validation misses the cache and reads the
   store, the session is invalidated meanwhile, and then the validation caches it for five minutes.
   */
  lemma RevokedButAccepted(s0: Sys, id: string, user: string, info: string, storeTtl: nat, cacheTtl: nat)
    requires Init(s0) && id != "" && user != "" && user[0] != ':' && cacheTtl < storeTtl
    ensures exists s :: Reaches(CarefulNext(true), s0, s) && id in s.revoked && Accepted(s, id)
  {
    hide Reaches, CarefulNext;
    Stays(CarefulNext(true), s0);
    var s1 := Proceeds(s0, s0, 0, Begin(id, user, info));
    var s2 := Proceeds(s0, s1, 0, Store(storeTtl));
    var s3 := Proceeds(s0, s2, 0, Cache(cacheTtl));
    var s4 := Proceeds(s0, s3, 0, Tick(storeTtl));
    var v := user + ":" + info;
    assert s4.store == map[id := Entry(v, s4.now)] && s4.cache == map[id := Entry(v, s4.now - storeTtl + cacheTtl)];
    ColonThere(user, info);
    var s := ReadThenRevoked(s0, s4, id, v);
    assert Accepted(s, id);
  }

  lemma ReadThenRevoked(s0: Sys, s4: Sys, id: string, v: string) returns (s: Sys)
    requires Reaches(CarefulNext(true), s0, s4) && PcOf(s4, 0).Idle? && PcOf(s4, 1).Idle? && id != "" && id in s4.returned
    requires id in s4.store && s4.store[id] == Entry(v, s4.now) && id in s4.cache && s4.cache[id].expiry < s4.now
    requires v != "" && v[0] != ':' && Prefix(v).Some?
    ensures Reaches(CarefulNext(true), s0, s) && id in s.revoked && CacheAnswers(s, id)
  {
    hide Reaches, CarefulNext;
    var s5 := Proceeds(s0, s4, 1, Lookup(id));
    assert HasUser(v) by { FindChar(v, ':', 0); }
    var s6 := Proceeds(s0, s5, 1, Read);
    var s7 := Proceeds(s0, s6, 0, Delete(id));
    var s8 := Proceeds(s0, s7, 0, Forget);
    s := Proceeds(s0, s8, 1, Fill);
  }

  /**
   Once invalidateSession has returned, no later validation accepts the session, in any interleaving of calls,
   if and only if no session's cache entry may expire before its store entry.
   */
  lemma InvalidationIsFinal(early: bool)
    ensures (forall run: seq<Sys>, i: nat, id :: IsRun(CarefulNext(early), run) && Init(run[0]) && i < |run| && id in run[i].revoked
                                                 ==> !Accepted(run[i], id))
            <==> !early
  {
    if !early {
      forall run: seq<Sys>, i: nat, id | IsRun(CarefulNext(early), run) && Init(run[0]) && i < |run| && id in run[i].revoked
        ensures !Accepted(run[i], id)
      {
        CarefulReachableInv(run, i);
        assert RevokedIsGone(run[i], id);
      }
    } else {
      var s0 := Sys(map[], map[], 0, map[], {}, {}, {});
      RevokedButAccepted(s0, "1", "u", "", 1, 0);
      var s :| Reaches(CarefulNext(true), s0, s) && "1" in s.revoked && Accepted(s, "1");
      var run: seq<Sys> :| IsRun(CarefulNext(true), run) && run[0] == s0 && run[|run| - 1] == s;
      assert Accepted(run[|run| - 1], "1");
    }
  }
}
