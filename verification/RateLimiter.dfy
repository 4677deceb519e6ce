/**
 Windowed counters. A counter starts a new window when the last one is older than the span, and a
 hit is allowed while the window's count is within the limit. The bounds are about whole histories
 of hits and give-backs on any number of keys, in the order in which they reach the table. The clock is
 read before the lock is taken, so hits on different keys may be out of time order; where a result needs
 the hits on its own key to be in order, it says so.
 */
module RateLimiter {

  const SECOND := 1_000_000_000  // the steady clock counts nanoseconds
  const MINUTE := 60 * SECOND
  const TEN_MINUTES := 10 * MINUTE

  const CONN_LIMIT := 30
  const CMD_LIMIT := 120
  const AUTH_LIMIT := 5

  datatype Counter = Counter(count: int, window: int)

  datatype Op<K> = Hit(key: K, now: int) | GiveBack(key: K)

  function Min(a: int, b: int): int {
    if a < b then a else b
  }

  /** A key not seen before has a zero counter whose window starts at the clock's epoch. */
  ghost function Of<K>(table: map<K, Counter>, key: K): Counter {
    if key in table then table[key] else Counter(0, 0)
  }

  function AfterHit(c: Counter, now: int, span: int): Counter {
    if now - c.window > span then Counter(1, now) else c.(count := c.count + 1)
  }

  function AfterGiveBack(c: Counter): Counter {
    if c.count > 0 then c.(count := c.count - 1) else c
  }

  /** The table after a history of operations. */
  ghost function Table<K>(ops: seq<Op<K>>, span: int): map<K, Counter> {
    if ops == [] then map[]
    else
      var table := Table(ops[..|ops| - 1], span);
      match ops[|ops| - 1]
      case Hit(key, now) => table[key := AfterHit(Of(table, key), now, span)]
      case GiveBack(key) => if key in table then table[key := AfterGiveBack(table[key])] else table
  }

  /** The answer to the last operation when it is a hit. */
  ghost predicate Allowed<K>(ops: seq<Op<K>>, span: int, limit: int)
    requires ops != [] && ops[|ops| - 1].Hit?
  {
    Of(Table(ops, span), ops[|ops| - 1].key).count <= limit
  }

  /** The time of the last hit on the key, or the clock's epoch. */
  ghost function Last<K>(ops: seq<Op<K>>, key: K): int {
    if ops == [] then 0
    else if ops[|ops| - 1].Hit? && ops[|ops| - 1].key == key then ops[|ops| - 1].now
    else Last(ops[..|ops| - 1], key)
  }

  /** The hits on this key are in time order. */
  ghost predicate Steady<K>(ops: seq<Op<K>>, key: K) {
    ops == [] || (Steady(ops[..|ops| - 1], key)
                  && (ops[|ops| - 1].Hit? && ops[|ops| - 1].key == key ==> ops[|ops| - 1].now >= Last(ops[..|ops| - 1], key)))
  }

  ghost function HitsSince<K>(ops: seq<Op<K>>, key: K, from: int): nat {
    if ops == [] then 0
    else
      var op := ops[|ops| - 1];
      HitsSince(ops[..|ops| - 1], key, from) + (if op.Hit? && op.key == key && op.now >= from then 1 else 0)
  }

  /** The give-backs that came after the first hit on the key with a time from `from` on. */
  ghost function BacksSince<K>(ops: seq<Op<K>>, key: K, from: int): nat {
    if ops == [] then 0
    else
      var before := ops[..|ops| - 1];
      BacksSince(before, key, from) + (if ops[|ops| - 1] == GiveBack(key) && HitsSince(before, key, from) > 0 then 1 else 0)
  }

  ghost function GiveBacks<K>(ops: seq<Op<K>>, key: K): nat {
    if ops == [] then 0
    else GiveBacks(ops[..|ops| - 1], key) + (if ops[|ops| - 1] == GiveBack(key) then 1 else 0)
  }

  /** How many hits on `key` with a time in [a, b] were allowed. */
  ghost function YesBetween<K>(ops: seq<Op<K>>, key: K, a: int, b: int, span: int, limit: int): nat {
    if ops == [] then 0
    else
      var op := ops[|ops| - 1];
      YesBetween(ops[..|ops| - 1], key, a, b, span, limit)
      + (if op.Hit? && op.key == key && a <= op.now <= b && Allowed(ops, span, limit) then 1 else 0)
  }

  /** The allowed hits and the give-backs since the present window of `key` began. */
  ghost function InWindow<K>(ops: seq<Op<K>>, key: K, span: int, limit: int): (nat, nat) {
    if ops == [] then (0, 0)
    else
      var before := ops[..|ops| - 1];
      var (yes, back) := InWindow(before, key, span, limit);
      match ops[|ops| - 1]
      case Hit(k, now) =>
        if k != key then (yes, back)
        else
          var n := if Allowed(ops, span, limit) then 1 else 0;
          if now - Of(Table(before, span), key).window > span then (n, 0) else (yes + n, back)
      case GiveBack(k) => if k == key then (yes, back + 1) else (yes, back)
  }

  lemma {:induction false} NothingWithoutHits<K>(ops: seq<Op<K>>, key: K, a: int, b: int, span: int, limit: int)
    requires HitsSince(ops, key, a) == 0
    ensures YesBetween(ops, key, a, b, span, limit) == 0
  {
    if ops != [] {
      NothingWithoutHits(ops[..|ops| - 1], key, a, b, span, limit);
    }
  }

  lemma {:induction false} CountNonNegative<K>(ops: seq<Op<K>>, key: K, span: int)
    ensures 0 <= Of(Table(ops, span), key).count
  {
    if ops != [] {
      CountNonNegative(ops[..|ops| - 1], key, span);
    }
  }

  lemma {:induction false} WindowSane<K>(ops: seq<Op<K>>, key: K, span: int)
    requires Steady(ops, key)
    ensures 0 <= Of(Table(ops, span), key).window <= Last(ops, key)
  {
    if ops != [] {
      WindowSane(ops[..|ops| - 1], key, span);
    }
  }

  lemma {:induction false} NoHitsBehind<K>(ops: seq<Op<K>>, key: K, from: int)
    requires Steady(ops, key) && Last(ops, key) < from
    ensures HitsSince(ops, key, from) == 0 && 0 <= Last(ops, key)
  {
    if ops != [] {
      LastGrows(ops, key);
      NoHitsBehind(ops[..|ops| - 1], key, from);
    }
  }

  lemma {:induction false} LastGrows<K>(ops: seq<Op<K>>, key: K)
    requires Steady(ops, key)
    ensures 0 <= Last(ops, key) && (ops != [] ==> Last(ops[..|ops| - 1], key) <= Last(ops, key))
  {
    if ops != [] { LastGrows(ops[..|ops| - 1], key); }
  }

  /**
   Within any one window a key is allowed at most `limit` hits plus one for every give-back of that
   window. This holds whatever the clock does.
   */
  lemma {:induction false} WindowBound<K>(ops: seq<Op<K>>, key: K, span: int, limit: nat)
    requires limit > 0
    ensures var (yes, back) := InWindow(ops, key, span, limit);
            yes <= back + Min(Of(Table(ops, span), key).count, limit) && yes <= limit + back
  {
    if ops != [] {
      var before := ops[..|ops| - 1];
      WindowBound(before, key, span, limit);
      CountNonNegative(before, key, span);
    }
  }

  lemma {:induction false} SlidingInvariant<K>(ops: seq<Op<K>>, key: K, a: int, span: int, limit: nat)
    requires Steady(ops, key) && span >= 0 && limit > 0
    ensures var c := Of(Table(ops, span), key);
            var y := YesBetween(ops, key, a, a + span, span, limit) - BacksSince(ops, key, a);
            && (c.window < a ==> y <= Min(c.count, limit))
            && (a <= c.window <= a + span ==> y <= limit + Min(c.count, limit))
            && y <= 2 * limit
            && (HitsSince(ops, key, a) == 0 ==> y <= 0)
  {
    if ops != [] {
      var before, op := ops[..|ops| - 1], ops[|ops| - 1];
      SlidingInvariant(before, key, a, span, limit);
      CountNonNegative(before, key, span);
      WindowSane(before, key, span);
      if op.Hit? && op.key == key && op.now < a {
        NoHitsBehind(before, key, a);
      }
      if HitsSince(before, key, a) == 0 {
        NothingWithoutHits(before, key, a, a + span, span, limit);
      }
    }
  }

  /** The history up to the last hit on the key with a time in [a, b]. */
  ghost function UpToLast<K>(ops: seq<Op<K>>, key: K, a: int, b: int): seq<Op<K>> {
    if ops == [] then []
    else if ops[|ops| - 1].Hit? && ops[|ops| - 1].key == key && a <= ops[|ops| - 1].now <= b then ops
    else UpToLast(ops[..|ops| - 1], key, a, b)
  }

  /** The give-backs that fall between the first and the last hit on the key with a time in [a, b]. */
  ghost function BacksDuring<K>(ops: seq<Op<K>>, key: K, a: int, b: int): nat {
    BacksSince(UpToLast(ops, key, a, b), key, a)
  }

  lemma {:induction false} UpToLastCounts<K>(ops: seq<Op<K>>, key: K, a: int, b: int, span: int, limit: int)
    ensures var cut := UpToLast(ops, key, a, b);
            && YesBetween(cut, key, a, b, span, limit) == YesBetween(ops, key, a, b, span, limit)
            && (Steady(ops, key) ==> Steady(cut, key)) && GiveBacks(cut, key) <= GiveBacks(ops, key)
  {
    if ops != [] {
      UpToLastCounts(ops[..|ops| - 1], key, a, b, span, limit);
    }
  }

  /**
   In any closed interval as long as the span a key is allowed at most twice the limit, plus one for every
   give-back between its first and its last hit of that interval.
   */
  lemma SlidingBound<K>(ops: seq<Op<K>>, key: K, a: int, span: int, limit: nat)
    requires Steady(ops, key) && span >= 0 && limit > 0
    ensures YesBetween(ops, key, a, a + span, span, limit) <= 2 * limit + BacksDuring(ops, key, a, a + span)
  {
    UpToLastCounts(ops, key, a, a + span, span, limit);
    SlidingInvariant(UpToLast(ops, key, a, a + span), key, a, span, limit);
  }

  // ------------------------------------------------------------------ the bound is reached

  ghost function Burst<K>(ops: seq<Op<K>>, key: K, now: int, n: nat): seq<Op<K>> {
    if n == 0 then ops else Burst(ops, key, now, n - 1) + [Hit(key, now)]
  }

  lemma BurstTail<K>(ops: seq<Op<K>>, key: K, now: int, n: nat)
    requires n > 0
    ensures var burst := Burst(ops, key, now, n);
            burst != [] && burst[|burst| - 1] == Hit(key, now) && burst[..|burst| - 1] == Burst(ops, key, now, n - 1)
  {
  }

  lemma {:induction false} BurstCounts<K>(ops: seq<Op<K>>, key: K, now: int, n: nat, span: int)
    requires Steady(ops, key) && now >= Last(ops, key) && span >= 0 && n > 0
    requires now - Of(Table(ops, span), key).window <= span ==> Of(Table(ops, span), key).count == 0
    ensures var burst := Burst(ops, key, now, n); var w := Of(Table(ops, span), key).window;
            && Steady(burst, key) && Last(burst, key) == now
            && Of(Table(burst, span), key) == Counter(n, if now - w > span then now else w)
  {
    BurstTail(ops, key, now, n);
    if n > 1 {
      BurstCounts(ops, key, now, n - 1, span);
    }
  }

  lemma {:induction false} BurstAllowed<K>(ops: seq<Op<K>>, key: K, now: int, n: nat, a: int, span: int, limit: nat)
    requires Steady(ops, key) && now >= Last(ops, key) && span >= 0 && a <= now <= a + span && n <= limit
    requires now - Of(Table(ops, span), key).window <= span ==> Of(Table(ops, span), key).count == 0
    ensures YesBetween(Burst(ops, key, now, n), key, a, a + span, span, limit)
            == YesBetween(ops, key, a, a + span, span, limit) + n
  {
    if n > 0 {
      BurstTail(ops, key, now, n);
      BurstCounts(ops, key, now, n, span);
      BurstAllowed(ops, key, now, n - 1, a, span, limit);
    }
  }

  /** A full window just before a reset and one just after it: twice the limit in two nanoseconds. */
  lemma SlidingBoundReached<K>(key: K, span: nat, limit: nat)
    requires span > 0 && limit > 0
    ensures exists ops: seq<Op<K>> :: Steady(ops, key) && GiveBacks(ops, key) == 0
                                      && YesBetween(ops, key, span, span + span, span, limit) == 2 * limit
  {
    var first := Burst([], key, span, limit);
    BurstCounts([], key, span, limit, span);
    BurstAllowed([], key, span, limit, span, span, limit);
    var ops := Burst(first, key, span + 1, limit);
    BurstCounts(first, key, span + 1, limit, span);
    BurstAllowed(first, key, span + 1, limit, span, span, limit);
    NoGiveBacks([], key, span, limit);
    NoGiveBacks(first, key, span + 1, limit);
    assert Steady(ops, key) && YesBetween(ops, key, span, span + span, span, limit) == 2 * limit;
  }

  lemma {:induction false} NoGiveBacks<K>(ops: seq<Op<K>>, key: K, now: int, n: nat)
    ensures GiveBacks(Burst(ops, key, now, n), key) == GiveBacks(ops, key)
  {
    if n > 0 {
      NoGiveBacks(ops, key, now, n - 1);
      var burst := Burst(ops, key, now, n);
      assert burst[..|burst| - 1] == Burst(ops, key, now, n - 1);
    }
  }

  // ------------------------------------------------------------------ failures

  lemma {:induction false} WindowCoversHits<K>(ops: seq<Op<K>>, key: K, span: int, from: int)
    requires Steady(ops, key) && span >= 0 && from > Of(Table(ops, span), key).window + span
    ensures HitsSince(ops, key, from) == 0
  {
    if ops != [] {
      var before, op := ops[..|ops| - 1], ops[|ops| - 1];
      WindowSane(before, key, span);
      if op.Hit? && op.key == key && op.now - Of(Table(before, span), key).window > span {
        NoHitsBehind(before, key, from);
      } else {
        WindowCoversHits(before, key, span, from);
      }
    }
  }

  /** Without give-backs the count is exactly the number of hits since the window began. */
  lemma {:induction false} CountIsHits<K>(ops: seq<Op<K>>, key: K, span: int)
    requires Steady(ops, key) && span >= 0 && GiveBacks(ops, key) == 0
    ensures var c := Of(Table(ops, span), key); c.count == HitsSince(ops, key, c.window)
  {
    if ops != [] {
      var before, op := ops[..|ops| - 1], ops[|ops| - 1];
      CountIsHits(before, key, span);
      WindowSane(before, key, span);
      if op.Hit? && op.key == key && op.now - Of(Table(before, span), key).window > span {
        WindowCoversHits(before, key, span, op.now);
      }
    }
  }

  lemma {:induction false} HitsSinceEarlier<K>(ops: seq<Op<K>>, key: K, from: int, earlier: int)
    requires earlier <= from
    ensures HitsSince(ops, key, from) <= HitsSince(ops, key, earlier)
  {
    if ops != [] { HitsSinceEarlier(ops[..|ops| - 1], key, from, earlier); }
  }

  /** allowAuth: refuses while the window is at most ten minutes old and has at least five failures. */
  ghost predicate AuthRefused<K>(failures: seq<Op<K>>, key: K, now: int) {
    var c := Of(Table(failures, TEN_MINUTES), key);
    key in Table(failures, TEN_MINUTES) && now - c.window <= TEN_MINUTES && c.count >= AUTH_LIMIT
  }

  /** Whoever is refused did fail at least five times in the last ten minutes. */
  lemma RefusalIsEarned<K>(failures: seq<Op<K>>, key: K, now: int)
    requires Steady(failures, key) && GiveBacks(failures, key) == 0 && AuthRefused(failures, key, now)
    ensures HitsSince(failures, key, now - TEN_MINUTES) >= AUTH_LIMIT
  {
    CountIsHits(failures, key, TEN_MINUTES);
    HitsSinceEarlier(failures, key, Of(Table(failures, TEN_MINUTES), key).window, now - TEN_MINUTES);
  }

  // ------------------------------------------------------------------ the object

  class RateLimiter {
    var conn: map<string, Counter>
    var cmd: map<nat, Counter>
    var auth: map<string, Counter>
    ghost var connOps: seq<Op<string>>
    ghost var cmdOps: seq<Op<nat>>
    ghost var failures: seq<Op<string>>

    /** The tables are what the histories make of them. */
    ghost predicate Valid()
      reads this
    {
      && conn == Table(connOps, MINUTE)
      && cmd == Table(cmdOps, MINUTE)
      && auth == Table(failures, TEN_MINUTES)
    }

    constructor ()
      ensures Valid() && connOps == [] && cmdOps == [] && failures == []
    {
      conn, cmd, auth := map[], map[], map[];
      connOps, cmdOps, failures := [], [], [];
    }

    method AllowConnection(ip: string, now: int) returns (yes: bool)
      requires Valid()
      modifies this
      ensures Valid() && connOps == old(connOps) + [Hit(ip, now)] && cmdOps == old(cmdOps) && failures == old(failures)
      ensures yes == Allowed(connOps, MINUTE, CONN_LIMIT)
    {
      var c := if ip in conn then conn[ip] else Counter(0, 0);
      if now - c.window > MINUTE {
        c := Counter(0, now);
      }
      c := c.(count := c.count + 1);
      conn := conn[ip := c];
      yes := c.count <= CONN_LIMIT;
      connOps := connOps + [Hit(ip, now)];
      assert connOps[..|connOps| - 1] == old(connOps);
    }

    method AllowCommand(session: nat, now: int) returns (yes: bool)
      requires Valid()
      modifies this
      ensures Valid() && cmdOps == old(cmdOps) + [Hit(session, now)] && connOps == old(connOps) && failures == old(failures)
      ensures yes == Allowed(cmdOps, MINUTE, CMD_LIMIT)
    {
      var c := if session in cmd then cmd[session] else Counter(0, 0);
      if now - c.window > MINUTE {
        c := Counter(0, now);
      }
      c := c.(count := c.count + 1);
      cmd := cmd[session := c];
      yes := c.count <= CMD_LIMIT;
      cmdOps := cmdOps + [Hit(session, now)];
      assert cmdOps[..|cmdOps| - 1] == old(cmdOps);
    }

    method RecordAuthFailure(ip: string, now: int)
      requires Valid()
      modifies this
      ensures Valid() && failures == old(failures) + [Hit(ip, now)] && connOps == old(connOps) && cmdOps == old(cmdOps)
    {
      var c := if ip in auth then auth[ip] else Counter(0, 0);
      if now - c.window > TEN_MINUTES {
        c := Counter(0, now);
      }
      auth := auth[ip := c.(count := c.count + 1)];
      failures := failures + [Hit(ip, now)];
      assert failures[..|failures| - 1] == old(failures);
    }

    method AllowAuth(ip: string, now: int) returns (yes: bool)
      requires Valid()
      ensures yes == !AuthRefused(failures, ip, now)
    {
      if ip !in auth { return true; }
      if now - auth[ip].window > TEN_MINUTES { return true; }
      return auth[ip].count < AUTH_LIMIT;
    }

    method ReleaseConnection(ip: string)
      requires Valid()
      modifies this
      ensures Valid() && connOps == old(connOps) + [GiveBack(ip)] && cmdOps == old(cmdOps) && failures == old(failures)
    {
      if ip in conn && conn[ip].count > 0 {
        conn := conn[ip := conn[ip].(count := conn[ip].count - 1)];
      }
      connOps := connOps + [GiveBack(ip)];
      assert connOps[..|connOps| - 1] == old(connOps);
    }
  }

  // ------------------------------------------------------------------ exactly who is refused

  /** Nothing was heard of the key for longer than the span before `t0`. */
  ghost predicate QuietBefore<K>(ops: seq<Op<K>>, key: K, t0: int, span: int) {
    Steady(ops, key) && t0 - Last(ops, key) > span
  }

  lemma QuietBurst<K>(ops: seq<Op<K>>, key: K, t0: int, n: nat, span: int)
    requires QuietBefore(ops, key, t0, span) && span >= 0 && n > 0
    ensures Of(Table(Burst(ops, key, t0, n), span), key) == Counter(n, t0)
  {
    WindowSane(ops, key, span);
    BurstCounts(ops, key, t0, n, span);
  }

  lemma NextHit<K>(ops: seq<Op<K>>, key: K, now: int, span: int, limit: int)
    ensures Allowed(ops + [Hit(key, now)], span, limit)
            <==> AfterHit(Of(Table(ops, span), key), now, span).count <= limit
  {
    assert (ops + [Hit(key, now)])[..|ops|] == ops;
  }

  /**
   After a quiet time, `n` hits at once: the next hit, at the same time or later, is refused exactly if `n` has
   reached the limit and no more than the span has passed. A give-back makes room for one more.
   */
  lemma RefusedExactly<K>(ops: seq<Op<K>>, key: K, t0: int, n: nat, now: int, span: nat, limit: nat)
    requires QuietBefore(ops, key, t0, span) && n > 0 && limit > 0 && now >= t0
    ensures var burst := Burst(ops, key, t0, n);
            && (Allowed(burst + [Hit(key, now)], span, limit) <==> n < limit || now > t0 + span)
            && (Allowed(burst + [GiveBack(key), Hit(key, now)], span, limit) <==> n <= limit || now > t0 + span)
  {
    var burst := Burst(ops, key, t0, n);
    QuietBurst(ops, key, t0, n, span);
    NextHit(burst, key, now, span, limit);
    var given := burst + [GiveBack(key)];
    assert given[..|burst|] == burst;
    assert key in Table(burst, span) by { BurstTail(ops, key, t0, n); }
    NextHit(given, key, now, span, limit);
    assert given + [Hit(key, now)] == burst + [GiveBack(key), Hit(key, now)];
  }

  /** What happens to one key does not change the counter of another. */
  lemma OtherKeysApart<K>(ops: seq<Op<K>>, op: Op<K>, key: K, span: int)
    requires op.key != key
    ensures Of(Table(ops + [op], span), key) == Of(Table(ops, span), key)
  {
    assert (ops + [op])[..|ops|] == ops;
  }

  /** The limits in numbers: 30 connections and 120 commands in a minute, and five failed logins in ten minutes. */
  lemma LimitsExactly(ops: seq<Op<string>>, cmds: seq<Op<nat>>, failures: seq<Op<string>>, ip: string, session: nat,
                      t0: int, n: nat, now: int)
    requires n > 0 && now >= t0
    requires QuietBefore(ops, ip, t0, MINUTE) && QuietBefore(cmds, session, t0, MINUTE) && QuietBefore(failures, ip, t0, TEN_MINUTES)
    ensures Allowed(Burst(ops, ip, t0, n) + [Hit(ip, now)], MINUTE, CONN_LIMIT) <==> n < 30 || now > t0 + 60_000_000_000
    ensures Allowed(Burst(cmds, session, t0, n) + [Hit(session, now)], MINUTE, CMD_LIMIT) <==> n < 120 || now > t0 + 60_000_000_000
    ensures AuthRefused(Burst(failures, ip, t0, n), ip, now) <==> n >= 5 && now <= t0 + 600_000_000_000
  {
    RefusedExactly(ops, ip, t0, n, now, MINUTE, CONN_LIMIT);
    RefusedExactly(cmds, session, t0, n, now, MINUTE, CMD_LIMIT);
    QuietBurst(failures, ip, t0, n, TEN_MINUTES);
    BurstTail(failures, ip, t0, n);
  }

  /** The command limit: 120 per window over any history, and 240 in any minute if the session's own hits are in order. */
  lemma CommandLimit(ops: seq<Op<nat>>, session: nat, a: int)
    requires GiveBacks(ops, session) == 0
    ensures InWindow(ops, session, MINUTE, CMD_LIMIT).0 <= 120
    ensures Steady(ops, session) ==> YesBetween(ops, session, a, a + MINUTE, MINUTE, CMD_LIMIT) <= 240
  {
    WindowBound(ops, session, MINUTE, CMD_LIMIT);
    NoBacksInWindow(ops, session, MINUTE, CMD_LIMIT);
    if Steady(ops, session) {
      SlidingBound(ops, session, a, MINUTE, CMD_LIMIT);
      UpToLastCounts(ops, session, a, a + MINUTE, MINUTE, CMD_LIMIT);
      NoBacksSince(UpToLast(ops, session, a, a + MINUTE), session, a);
    }
  }

  lemma {:induction false} NoBacksInWindow<K>(ops: seq<Op<K>>, key: K, span: int, limit: int)
    ensures InWindow(ops, key, span, limit).1 <= GiveBacks(ops, key)
  {
    if ops != [] { NoBacksInWindow(ops[..|ops| - 1], key, span, limit); }
  }

  lemma {:induction false} NoBacksSince<K>(ops: seq<Op<K>>, key: K, from: int)
    ensures BacksSince(ops, key, from) <= GiveBacks(ops, key)
  {
    if ops != [] { NoBacksSince(ops[..|ops| - 1], key, from); }
  }

  /**
   The connection limit: 30 per window and one more for every release in it, over any history; and 60 in any
   minute and one more for every release in it, if the address's own hits are in order.
   */
  lemma ConnectionLimit(ops: seq<Op<string>>, ip: string, a: int)
    ensures var (yes, released) := InWindow(ops, ip, MINUTE, CONN_LIMIT); yes <= 30 + released
    ensures Steady(ops, ip) ==>
              YesBetween(ops, ip, a, a + MINUTE, MINUTE, CONN_LIMIT) <= 60 + BacksDuring(ops, ip, a, a + MINUTE)
  {
    WindowBound(ops, ip, MINUTE, CONN_LIMIT);
    if Steady(ops, ip) { SlidingBound(ops, ip, a, MINUTE, CONN_LIMIT); }
  }
}
