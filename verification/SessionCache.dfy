/**
 Sessions of the distributed authentication manager: a store and a local cache in front of it, which
 also holds the users, against one plain table of sessions. Every operation reads the clock once.
 */
module SessionCache {
  import opened Options
  import opened Strings

  const CACHE_TTL := 300

  datatype Entry = Entry(value: string, expiry: int)

  /** `sessions` is the session store; `cache` and `cacheExpiry` are the local cache, which users share. */
  datatype Auth = Auth(
    healthy: bool,
    cluster: string,
    sessions: map<string, Entry>,
    cache: map<string, string>,
    cacheExpiry: map<string, int>)

  function ClusterKey(cluster: string, suffix: string): string {
    "emailserver:" + cluster + ":" + suffix
  }

  function UserKey(s: Auth, user: string): string { ClusterKey(s.cluster, "user:" + user) }

  function SessionKey(s: Auth, id: string): string { ClusterKey(s.cluster, "session:" + id) }

  lemma KeysApart(s: Auth, user: string, id: string)
    ensures UserKey(s, user) != SessionKey(s, id)
  {
    var n := |"emailserver:" + s.cluster + ":"|;
    assert UserKey(s, user)[n] == 'u' && SessionKey(s, id)[n] == 's';
  }

  lemma SessionKeysApart(s: Auth, a: string, b: string)
    ensures SessionKey(s, a) == SessionKey(s, b) ==> a == b
  {
    var n := |"emailserver:" + s.cluster + ":" + "session:"|;
    assert SessionKey(s, a)[n..] == a && SessionKey(s, b)[n..] == b;
  }

  // ------------------------------------------------------------------ the operations

  /** The text before the first colon; nothing when there is no colon. */
  function Prefix(value: string): Option<string> {
    var pos := Find(value, ":", 0);
    if pos.None? then None else Some(value[..pos.value])
  }

  function Cached(s: Auth, key: string, now: int): string {
    if key !in s.cache then ""
    else if key in s.cacheExpiry && now > s.cacheExpiry[key] then ""
    else s.cache[key]
  }

  function Remember(s: Auth, key: string, value: string, expiry: int): Auth {
    s.(cache := s.cache[key := value], cacheExpiry := s.cacheExpiry[key := expiry])
  }

  function Forget(s: Auth, key: string): Auth {
    s.(cache := s.cache - {key}, cacheExpiry := s.cacheExpiry - {key})
  }

  /** createSession with separate expiry times, as separate clock readings would give. */
  function Created(s: Auth, id: string, user: string, info: string, storeExpiry: int, cacheExpiry: int): Auth {
    if !s.healthy || user == "" then s
    else
      var key, value := SessionKey(s, id), user + ":" + info;
      Remember(s.(sessions := s.sessions[key := Entry(value, storeExpiry)]), key, value, cacheExpiry)
  }

  /** The answer of the session store alone. */
  function StoreAnswer(s: Auth, id: string, now: int): Option<string> {
    var key := SessionKey(s, id);
    if key !in s.sessions || now > s.sessions[key].expiry then None
    else
      var user := Prefix(s.sessions[key].value);
      if user.None? || user.value == "" then None else user
  }

  /** validateSession: the cache first, then the store, whose answer is cached for the default time. */
  function Validated(s: Auth, id: string, now: int): (Option<string>, Auth) {
    if !s.healthy || id == "" then (None, s)
    else
      var key := SessionKey(s, id);
      var cached := Cached(s, key, now);
      if cached != "" && Prefix(cached).Some? then (Prefix(cached), s)
      else
        var answer := StoreAnswer(s, id, now);
        if answer.None? then (None, s)
        else (answer, Remember(s, key, s.sessions[key].value, now + CACHE_TTL))
  }

  function Invalidated(s: Auth, id: string): Auth {
    if !s.healthy || id == "" then s
    else Forget(s.(sessions := s.sessions - {SessionKey(s, id)}), SessionKey(s, id))
  }

  function Cleaned(s: Auth, now: int): Auth {
    s.(sessions := map k | k in s.sessions && now <= s.sessions[k].expiry :: s.sessions[k],
       cache := map k | k in s.cache && !(k in s.cacheExpiry && now > s.cacheExpiry[k]) :: s.cache[k],
       cacheExpiry := map k | k in s.cacheExpiry && now <= s.cacheExpiry[k] :: s.cacheExpiry[k])
  }

  /** addUser and updateUserPassword. */
  function UserStored(s: Auth, user: string, hash: string, now: int): Auth {
    if !s.healthy || user == "" then s else Remember(s, UserKey(s, user), hash, now + CACHE_TTL)
  }

  function UserRemoved(s: Auth, user: string): Auth {
    if !s.healthy || user == "" || UserKey(s, user) !in s.cache then s else Forget(s, UserKey(s, user))
  }

  datatype Op =
    | Create(id: string, user: string, info: string, now: int)
    | Validate(id: string, now: int)
    | Invalidate(id: string)
    | Cleanup(now: int)
    | StoreUser(user: string, hash: string, now: int)
    | RemoveUser(user: string)

  function After(s: Auth, op: Op, timeout: nat): Auth {
    match op
    case Create(id, user, info, now) => Created(s, id, user, info, now + timeout, now + timeout)
    case Validate(id, now) => Validated(s, id, now).1
    case Invalidate(id) => Invalidated(s, id)
    case Cleanup(now) => Cleaned(s, now)
    case StoreUser(user, hash, now) => UserStored(s, user, hash, now)
    case RemoveUser(user) => UserRemoved(s, user)
  }

  // ------------------------------------------------------------------ one plain table

  /** What the manager is for: a session lives from its creation to its invalidation or its expiry. */
  datatype Live = Live(user: string, info: string, expiry: int)

  function TableAfter(t: map<string, Live>, op: Op, timeout: nat): map<string, Live> {
    match op
    case Create(id, user, info, now) => if user == "" then t else t[id := Live(user, info, now + timeout)]
    case Invalidate(id) => if id == "" then t else t - {id}
    case _ => t
  }

  function TableAnswer(t: map<string, Live>, id: string, now: int): Option<string> {
    if id != "" && id in t && now <= t[id].expiry then Some(t[id].user) else None
  }

  predicate Admissible(op: Op) {
    op.Create? ==> ':' !in op.user
  }

  function TimeOf(op: Op, last: int): int {
    match op
    case Create(_, _, _, now) => now
    case Validate(_, now) => now
    case Cleanup(now) => now
    case StoreUser(_, _, now) => now
    case _ => last
  }

  function TimeAfter(ops: seq<Op>): int {
    if ops == [] then 0 else TimeOf(ops[|ops| - 1], TimeAfter(ops[..|ops| - 1]))
  }

  /** A clock that does not run backwards and user names without a colon. */
  predicate Proper(ops: seq<Op>) {
    ops == [] ||
    (Proper(ops[..|ops| - 1]) && Admissible(ops[|ops| - 1])
     && TimeOf(ops[|ops| - 1], TimeAfter(ops[..|ops| - 1])) >= TimeAfter(ops[..|ops| - 1]))
  }

  function Ran(s: Auth, ops: seq<Op>, timeout: nat): Auth {
    if ops == [] then s else After(Ran(s, ops[..|ops| - 1], timeout), ops[|ops| - 1], timeout)
  }

  function TableRan(ops: seq<Op>, timeout: nat): map<string, Live> {
    if ops == [] then map[] else TableAfter(TableRan(ops[..|ops| - 1], timeout), ops[|ops| - 1], timeout)
  }

  /** Cache and store agree on one session, and both with the table, up to what has expired by `last`. */
  ghost predicate SessionAgrees(s: Auth, t: map<string, Live>, last: int, id: string) {
    var key := SessionKey(s, id);
    && (key in s.cache <==> key in s.sessions) && (key in s.cacheExpiry <==> key in s.sessions)
    && (key in s.sessions ==>
         && s.cache[key] == s.sessions[key].value && s.cacheExpiry[key] == s.sessions[key].expiry
         && id in t && s.sessions[key] == Entry(t[id].user + ":" + t[id].info, t[id].expiry)
         && ':' !in t[id].user && t[id].user != "")
    && (id in t && last <= t[id].expiry ==> key in s.sessions)
  }

  ghost predicate Agrees(s: Auth, t: map<string, Live>, last: int) {
    s.healthy && forall id :: SessionAgrees(s, t, last, id)
  }

  /** The user is recovered from `user:info` exactly when it has no colon itself. */
  lemma PrefixRecovers(user: string, info: string)
    ensures Prefix(user + ":" + info) == Some(user) <==> ':' !in user
  {
    var value := user + ":" + info;
    FindChar(value, ':', 0);
    assert value[|user|] == ':';
    var pos := Find(value, ":", 0);
    if ':' !in user {
      forall j | 0 <= j < |user| ensures value[j] != ':' { assert value[j] == user[j] && user[j] in user; }
      FindCharIs(value, ':', 0, |user|);
      assert value[..|user|] == user;
    } else {
      var i :| 0 <= i < |user| && user[i] == ':';
      assert value[i] == ':';
      assert pos.Some? && pos.value <= i;
    }
  }

  lemma StepKeepsAgreement(s: Auth, t: map<string, Live>, last: int, op: Op, timeout: nat, id: string)
    requires Agrees(s, t, last) && Admissible(op) && TimeOf(op, last) >= last
    ensures SessionAgrees(After(s, op, timeout), TableAfter(t, op, timeout), TimeOf(op, last), id)
  {
    assert SessionAgrees(s, t, last, id);
    match op
    case Create(x, user, info, now) => SessionKeysApart(s, id, x);
    case Validate(x, now) => ValidationChangesNothing(s, t, last, x, now);
    case Invalidate(x) => SessionKeysApart(s, id, x);
    case Cleanup(now) =>
    case StoreUser(user, hash, now) => KeysApart(s, user, id);
    case RemoveUser(user) => KeysApart(s, user, id);
  }

  /** With one clock reading per call a session in the store is in the cache, so the store is never asked. */
  lemma ValidationChangesNothing(s: Auth, t: map<string, Live>, last: int, id: string, now: int)
    requires Agrees(s, t, last) && now >= last
    ensures Validated(s, id, now) == (TableAnswer(t, id, now), s)
    ensures id != "" ==> StoreAnswer(s, id, now) == TableAnswer(t, id, now)
  {
    assert SessionAgrees(s, t, last, id);
    var key := SessionKey(s, id);
    if key in s.sessions {
      PrefixRecovers(t[id].user, t[id].info);
    }
  }

  lemma {:induction false} RunAgrees(s: Auth, ops: seq<Op>, timeout: nat)
    requires s.healthy && s.sessions == map[] && s.cache == map[] && s.cacheExpiry == map[] && Proper(ops)
    ensures Agrees(Ran(s, ops, timeout), TableRan(ops, timeout), TimeAfter(ops))
    ensures Ran(s, ops, timeout).cluster == s.cluster
  {
    if ops != [] {
      var before, op := ops[..|ops| - 1], ops[|ops| - 1];
      RunAgrees(s, before, timeout);
      forall id ensures SessionAgrees(Ran(s, ops, timeout), TableRan(ops, timeout), TimeAfter(ops), id) {
        StepKeepsAgreement(Ran(s, before, timeout), TableRan(before, timeout), TimeAfter(before), op, timeout, id);
      }
    }
  }

  /**
   After any operations on sessions and users, at any time since the last one, validateSession gives
   the answer and the user of the plain table of sessions, which is also what the store alone gives.
   */
  lemma {:induction false} ValidationIsTheTable(s: Auth, ops: seq<Op>, timeout: nat, id: string, now: int)
    requires s.healthy && s.sessions == map[] && s.cache == map[] && s.cacheExpiry == map[]
    requires Proper(ops) && now >= TimeAfter(ops)
    ensures var end := Ran(s, ops, timeout);
            && Validated(end, id, now).0 == TableAnswer(TableRan(ops, timeout), id, now)
            && (id != "" ==> Validated(end, id, now).0 == StoreAnswer(end, id, now))
  {
    RunAgrees(s, ops, timeout);
    ValidationChangesNothing(Ran(s, ops, timeout), TableRan(ops, timeout), TimeAfter(ops), id, now);
  }

  // ------------------------------------------------------------------ where it fails

  /**
   With separate clock readings the two expiry times may differ, and then the cache does not keep to
   the store: it does for all later times exactly when they are equal.
   */
  lemma SplitClockBreaksAgreement(s: Auth, id: string, user: string, info: string, now: int, storeExpiry: int, cacheExpiry: int)
    requires s.healthy && id != "" && user != "" && ':' !in user && now <= storeExpiry && now <= cacheExpiry
    ensures var c := Created(s, id, user, info, storeExpiry, cacheExpiry);
            (forall t1, t2 :: now <= t1 <= t2 ==> Validated(Validated(c, id, t1).1, id, t2).0 == StoreAnswer(c, id, t2))
            <==> storeExpiry == cacheExpiry
  {
    var c := Created(s, id, user, info, storeExpiry, cacheExpiry);
    PrefixRecovers(user, info);
    if cacheExpiry > storeExpiry {
      assert Validated(Validated(c, id, cacheExpiry).1, id, cacheExpiry).0 == Some(user);
      assert StoreAnswer(c, id, cacheExpiry).None?;
    } else if cacheExpiry < storeExpiry {
      assert Validated(Validated(c, id, storeExpiry).1, id, storeExpiry + 1).0 == Some(user);
      assert StoreAnswer(c, id, storeExpiry + 1).None?;
    }
  }

  /** A user name that starts with a colon is accepted by the cache and refused by the store. */
  lemma ColonFirstDisagrees(s: Auth, id: string, user: string, info: string, now: int, timeout: nat)
    requires s.healthy && id != "" && user != ""
    ensures var c := After(s, Create(id, user, info, now), timeout);
            Validated(c, id, now).0 == StoreAnswer(c, id, now) <==> user[0] != ':'
  {
    var value := user + ":" + info;
    FindChar(value, ':', 0);
    assert value[|user|] == ':' && value[0] == user[0];
  }

  /** A user as it was stored is still in the cache, with its expiry. */
  predicate UserThere(s: Auth, key: string, expiry: int) {
    s.healthy && key in s.cache && key in s.cacheExpiry && s.cacheExpiry[key] == expiry
  }

  lemma {:induction false} SessionsSpareUsers(s: Auth, user: string, ops: seq<Op>, timeout: nat, expiry: int)
    requires UserThere(s, UserKey(s, user), expiry)
    requires forall i :: 0 <= i < |ops| ==> ops[i].Create? || ops[i].Validate? || ops[i].Invalidate?
    ensures UserThere(Ran(s, ops, timeout), UserKey(s, user), expiry) && Ran(s, ops, timeout).cluster == s.cluster
  {
    if ops != [] {
      var before, op := ops[..|ops| - 1], ops[|ops| - 1];
      SessionsSpareUsers(s, user, before, timeout, expiry);
      KeysApart(s, user, op.id);
    }
  }

  /**
   Users live in the cache only. Whatever is done with sessions in between, the first cleanup later than five
   minutes after a user was stored removes it, and an earlier one does not.
   */
  lemma UsersExpire(s: Auth, user: string, hash: string, stored: int, ops: seq<Op>, timeout: nat, now: int)
    requires s.healthy && user != ""
    requires forall i :: 0 <= i < |ops| ==> ops[i].Create? || ops[i].Validate? || ops[i].Invalidate?
    ensures UserKey(s, user) in Cleaned(Ran(UserStored(s, user, hash, stored), ops, timeout), now).cache
            <==> now <= stored + CACHE_TTL
  {
    SessionsSpareUsers(UserStored(s, user, hash, stored), user, ops, timeout, stored + CACHE_TTL);
  }

  // ------------------------------------------------------------------ cleaning, filling, removing

  /** A cleanup leaves of the sessions exactly those that the table still has and that are not expired. */
  lemma CleanupIsExact(s: Auth, t: map<string, Live>, last: int, id: string, now: int)
    requires Agrees(s, t, last) && now >= last
    ensures SessionKey(s, id) in Cleaned(s, now).sessions <==> id in t && now <= t[id].expiry && SessionKey(s, id) in s.sessions
    ensures id in t && now <= t[id].expiry ==> SessionKey(s, id) in Cleaned(s, now).sessions
  {
    assert SessionAgrees(s, t, last, id);
  }

  /** A session that only the store knows is accepted, and from then on for 300 seconds by the cache, whatever becomes of the store. */
  lemma FilledForFiveMinutes(s: Auth, id: string, user: string, info: string, expiry: int, now: int, later: int)
    requires s.healthy && id != "" && user != "" && ':' !in user && now <= expiry && later >= now
    requires SessionKey(s, id) in s.sessions && s.sessions[SessionKey(s, id)] == Entry(user + ":" + info, expiry)
    requires SessionKey(s, id) !in s.cache
    ensures Validated(s, id, now).0 == Some(user)
    ensures var filled := Validated(s, id, now).1;
            Validated(filled.(sessions := map[]), id, later).0 == if later <= now + 300 then Some(user) else None
  {
    PrefixRecovers(user, info);
  }

  /** Removing a user takes that user out of the cache and no other entry. */
  lemma UserGone(s: Auth, user: string, key: string)
    requires s.healthy && user != ""
    ensures var s' := UserRemoved(s, user);
            && s'.sessions == s.sessions
            && (key in s'.cache <==> key in s.cache && key != UserKey(s, user))
            && (key in s'.cache ==> s'.cache[key] == s.cache[key])
  {
  }
}
