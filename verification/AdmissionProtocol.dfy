/**
 Connection admission: any number of acquirers whose global test, per-IP count and global increment
 are separate steps, and releasers whose two decrements are separate steps.
 */
module AdmissionProtocol {
  import opened Runs

  type Ip = string
  type Acquirer = nat
  type Conn = nat

  const RESET_AFTER := 300

  datatype Limits = Limits(globalMax: nat, perIpMax: nat, members: set<Acquirer>)

  datatype IpCount = IpCount(count: int, lastAccess: int)

  datatype Pc = Idle | Admitted(ip: Ip) | Counted(ip: Ip)

  /**
   `live` are the connections between their increment and their release, `leaving` those whose release
   is half done. `lost` counts, per IP, the connections a 5-minute reset dropped from the count.
   */
  datatype Sys = Sys(
    active: int,
    counts: map<Ip, IpCount>,
    now: int,
    pcs: map<Acquirer, Pc>,
    live: map<Conn, Ip>,
    leaving: map<Conn, Ip>,
    lost: map<Ip, int>)

  function PcOf(s: Sys, t: Acquirer): Pc {
    if t in s.pcs then s.pcs[t] else Idle
  }

  function CountOf(s: Sys, ip: Ip): int {
    if ip in s.counts then s.counts[ip].count else 0
  }

  function LostOf(s: Sys, ip: Ip): int {
    if ip in s.lost then s.lost[ip] else 0
  }

  /** A fresh entry starts at the clock's epoch. */
  function Entry(counts: map<Ip, IpCount>, ip: Ip): IpCount {
    if ip in counts then counts[ip] else IpCount(0, 0)
  }

  /** The count the locked section of tryAcquireConnection tests. */
  function Effective(e: IpCount, now: int): int {
    if now - e.lastAccess > RESET_AFTER then 0 else e.count
  }

  datatype Action =
    | TestGlobal(ip: Ip)
    | CountIp
    | Increment(c: Conn)
    | Decrement(c: Conn)
    | UncountIp(c: Conn)
    | Tick(d: nat)

  ghost predicate Enabled(lim: Limits, s: Sys, t: Acquirer, a: Action) {
    match a
    case TestGlobal(ip) => t in lim.members && PcOf(s, t).Idle?
    case CountIp => t in lim.members && PcOf(s, t).Admitted?
    case Increment(c) => t in lim.members && PcOf(s, t).Counted? && c !in s.live && c !in s.leaving
    case Decrement(c) => c in s.live
    case UncountIp(c) => c in s.leaving
    case Tick(d) => true
  }

  function Effect(lim: Limits, s: Sys, t: Acquirer, a: Action): Sys {
    match a
    case TestGlobal(ip) => s.(pcs := s.pcs[t := if s.active >= lim.globalMax then Idle else Admitted(ip)])
    case CountIp =>
      (match PcOf(s, t)
       case Admitted(ip) =>
         var e := Entry(s.counts, ip);
         var n := Effective(e, s.now);
         s.(pcs := s.pcs[t := if n >= lim.perIpMax then Idle else Counted(ip)],
            counts := s.counts[ip := IpCount(if n >= lim.perIpMax then n else n + 1, s.now)],
            lost := s.lost[ip := LostOf(s, ip) + (e.count - n)])
       case _ => s)
    case Increment(c) =>
      (match PcOf(s, t)
       case Counted(ip) => s.(pcs := s.pcs[t := Idle], active := s.active + 1, live := s.live[c := ip])
       case _ => s)
    case Decrement(c) =>
      if c in s.live then s.(active := s.active - 1, live := s.live - {c}, leaving := s.leaving[c := s.live[c]]) else s
    case UncountIp(c) =>
      if c !in s.leaving then s
      else
        var ip := s.leaving[c];
        var s' := s.(leaving := s.leaving - {c});
        if ip in s.counts && s.counts[ip].count > 0 then
          s'.(counts := s.counts[ip := s.counts[ip].(count := s.counts[ip].count - 1)])
        else s'.(lost := s.lost[ip := LostOf(s, ip) - 1])
    case Tick(d) => s.(now := s.now + d)
  }

  ghost function Next(lim: Limits): (Sys, Sys) -> bool {
    (s, s') => exists t: Acquirer, a: Action :: Enabled(lim, s, t, a) && s' == Effect(lim, s, t, a)
  }

  ghost predicate Init(s: Sys) {
    s.active == 0 && s.counts == map[] && s.pcs == map[] && s.live == map[] && s.leaving == map[] && s.lost == map[]
  }

  // ------------------------------------------------------------------ counting

  /** The acquirers that passed the global test and have not incremented yet. */
  function Pending(s: Sys): set<Acquirer> {
    set t | t in s.pcs && !s.pcs[t].Idle?
  }

  /** Those counted for the IP and not uncounted yet: acquirers about to increment, ... */
  function Acquiring(s: Sys, ip: Ip): set<Acquirer> {
    WaitingIn(s.pcs, ip)
  }

  function WaitingIn(pcs: map<Acquirer, Pc>, ip: Ip): set<Acquirer> {
    set t | t in pcs && pcs[t] == Counted(ip)
  }

  function With(conns: map<Conn, Ip>, ip: Ip): set<Conn> {
    set c | c in conns && conns[c] == ip
  }

  /** ... open connections, ... */
  function Open(s: Sys, ip: Ip): set<Conn> {
    With(s.live, ip)
  }

  /** ... and connections whose release is half done. */
  function Closing(s: Sys, ip: Ip): set<Conn> {
    With(s.leaving, ip)
  }

  function Held(s: Sys, ip: Ip): nat {
    |Acquiring(s, ip)| + |Open(s, ip)| + |Closing(s, ip)|
  }

  ghost predicate GlobalBound(lim: Limits, s: Sys) {
    && s.active == |s.live|
    && Pending(s) <= lim.members
    && (lim.members != {} ==> s.active + |Pending(s)| <= lim.globalMax + |lim.members| - 1)
    && (lim.members == {} ==> s.active == 0)
  }

  ghost predicate IpBound(lim: Limits, s: Sys, ip: Ip) {
    && 0 <= CountOf(s, ip) <= lim.perIpMax
    && 0 <= LostOf(s, ip)
    && CountOf(s, ip) + LostOf(s, ip) == Held(s, ip)
  }

  ghost predicate Inv(lim: Limits, s: Sys) {
    && GlobalBound(lim, s)
    && (forall ip :: IpBound(lim, s, ip))
    && s.live.Keys !! s.leaving.Keys
  }

  lemma PendingAfter(lim: Limits, s: Sys, t: Acquirer, a: Action)
    requires Enabled(lim, s, t, a)
    ensures var p, p' := Pending(s), Pending(Effect(lim, s, t, a));
            match a
            case TestGlobal(ip) => p' == if s.active >= lim.globalMax then p - {t} else p + {t}
            case CountIp => p' == p || p' == p - {t}
            case Increment(c) => t in p && p' == p - {t}
            case _ => p' == p
  {
  }

  lemma Added(conns: map<Conn, Ip>, c: Conn, v: Ip, ip: Ip)
    requires c !in conns
    ensures |conns[c := v]| == |conns| + 1
    ensures |With(conns[c := v], ip)| == |With(conns, ip)| + (if v == ip then 1 else 0)
  {
    var conns' := conns[c := v];
    assert conns'.Keys == conns.Keys + {c};
    if v == ip {
      assert With(conns', ip) == With(conns, ip) + {c};
    } else {
      assert With(conns', ip) == With(conns, ip);
    }
  }

  lemma Dropped(conns: map<Conn, Ip>, c: Conn, ip: Ip)
    requires c in conns
    ensures |conns - {c}| == |conns| - 1
    ensures |With(conns - {c}, ip)| == |With(conns, ip)| - (if conns[c] == ip then 1 else 0)
  {
    var conns' := conns - {c};
    assert conns'.Keys + {c} == conns.Keys;
    if conns[c] == ip {
      assert With(conns', ip) + {c} == With(conns, ip);
    } else {
      assert With(conns', ip) == With(conns, ip);
    }
  }

  lemma LiveAfter(lim: Limits, s: Sys, t: Acquirer, a: Action)
    requires Enabled(lim, s, t, a)
    ensures var n, n' := |s.live|, |Effect(lim, s, t, a).live|;
            n' == (match a
                   case Increment(c) => n + 1
                   case Decrement(c) => n - 1
                   case _ => n)
  {
    match a
    case Increment(c) => Added(s.live, c, PcOf(s, t).ip, "");
    case Decrement(c) => Dropped(s.live, c, "");
    case _ =>
  }

  lemma GlobalBoundKept(lim: Limits, s: Sys, t: Acquirer, a: Action)
    requires GlobalBound(lim, s) && Enabled(lim, s, t, a)
    ensures GlobalBound(lim, Effect(lim, s, t, a))
  {
    var p, p' := Pending(s), Pending(Effect(lim, s, t, a));
    PendingAfter(lim, s, t, a);
    LiveAfter(lim, s, t, a);
    if p' == p + {t} && t !in p {
      assert t in lim.members && a.TestGlobal?;
      Subset(p', lim.members);
    } else if t in p && p' == p - {t} {
      assert |p'| == |p| - 1;
    } else {
      assert p' == p;
    }
  }

  lemma {:induction false} Subset<T>(a: set<T>, b: set<T>)
    requires a <= b
    ensures |a| <= |b|
  {
    assert b == a + (b - a);
  }

  predicate Counts(lim: Limits, s: Sys, t: Acquirer, a: Action, ip: Ip) {
    a.CountIp? && PcOf(s, t) == Admitted(ip) && Effective(Entry(s.counts, ip), s.now) < lim.perIpMax
  }

  lemma AcquiringAfter(lim: Limits, s: Sys, t: Acquirer, a: Action, ip: Ip)
    requires Enabled(lim, s, t, a)
    ensures var n, n' := |Acquiring(s, ip)|, |Acquiring(Effect(lim, s, t, a), ip)|;
            n' == if Counts(lim, s, t, a, ip) then n + 1 else if a.Increment? && PcOf(s, t) == Counted(ip) then n - 1 else n
  {
    hide WaitingIn;
    match a
    case TestGlobal(ip') => Moves(s.pcs, t, if s.active >= lim.globalMax then Idle else Admitted(ip'), ip);
    case CountIp =>
      var e := PcOf(s, t).ip;
      Moves(s.pcs, t, if Effective(Entry(s.counts, e), s.now) >= lim.perIpMax then Idle else Counted(e), ip);
    case Increment(c) => Moves(s.pcs, t, Idle, ip);
    case _ =>
  }

  lemma Moves(pcs: map<Acquirer, Pc>, t: Acquirer, pc: Pc, ip: Ip)
    ensures |WaitingIn(pcs[t := pc], ip)| ==
              |WaitingIn(pcs, ip)| + (if pc == Counted(ip) then 1 else 0) - (if t in pcs && pcs[t] == Counted(ip) then 1 else 0)
  {
    var x, x' := WaitingIn(pcs, ip), WaitingIn(pcs[t := pc], ip);
    if pc == Counted(ip) {
      assert x' == x + {t};
    } else {
      assert x' == x - {t};
    }
  }

  lemma LiveIs(lim: Limits, s: Sys, t: Acquirer, a: Action)
    requires Enabled(lim, s, t, a)
    ensures Effect(lim, s, t, a).live ==
              (match a
               case Increment(c) => s.live[c := PcOf(s, t).ip]
               case Decrement(c) => s.live - {c}
               case _ => s.live)
  {
  }

  lemma OpenAfter(lim: Limits, s: Sys, t: Acquirer, a: Action, ip: Ip)
    requires Enabled(lim, s, t, a)
    ensures var n, n' := |Open(s, ip)|, |Open(Effect(lim, s, t, a), ip)|;
            n' == if a.Increment? && PcOf(s, t) == Counted(ip) then n + 1
                  else if a.Decrement? && s.live[a.c] == ip then n - 1 else n
  {
    hide With, Effect, Effective, Entry;
    LiveIs(lim, s, t, a);
    match a
    case Increment(c) => Added(s.live, c, PcOf(s, t).ip, ip);
    case Decrement(c) => Dropped(s.live, c, ip);
    case _ =>
  }

  lemma ClosingAfter(lim: Limits, s: Sys, t: Acquirer, a: Action, ip: Ip)
    requires Enabled(lim, s, t, a) && s.live.Keys !! s.leaving.Keys
    ensures var n, n' := |Closing(s, ip)|, |Closing(Effect(lim, s, t, a), ip)|;
            n' == if a.Decrement? && s.live[a.c] == ip then n + 1
                  else if a.UncountIp? && s.leaving[a.c] == ip then n - 1 else n
  {
    hide With;
    match a
    case Decrement(c) => Added(s.leaving, c, s.live[c], ip);
    case UncountIp(c) => Dropped(s.leaving, c, ip);
    case _ =>
  }

  /** Counting and uncounting change the number held by one; the other steps only move a holder on. */
  lemma HeldAfter(lim: Limits, s: Sys, t: Acquirer, a: Action, ip: Ip)
    requires Enabled(lim, s, t, a) && s.live.Keys !! s.leaving.Keys
    ensures Held(Effect(lim, s, t, a), ip) == Held(s, ip)
            + (if Counts(lim, s, t, a, ip) then 1 else if a.UncountIp? && s.leaving[a.c] == ip then -1 else 0)
  {
    hide Acquiring, Open, Closing, Effect;
    AcquiringAfter(lim, s, t, a, ip);
    OpenAfter(lim, s, t, a, ip);
    ClosingAfter(lim, s, t, a, ip);
  }

  lemma IpBoundKept(lim: Limits, s: Sys, t: Acquirer, a: Action, ip: Ip)
    requires IpBound(lim, s, ip) && s.live.Keys !! s.leaving.Keys && Enabled(lim, s, t, a)
    ensures IpBound(lim, Effect(lim, s, t, a), ip)
  {
    hide Held;
    HeldAfter(lim, s, t, a, ip);
    if a.UncountIp? && s.leaving[a.c] == ip {
      Dropped(s.leaving, a.c, ip);
    }
  }

  lemma StepKeepsInv(lim: Limits, s: Sys, t: Acquirer, a: Action)
    requires Inv(lim, s) && Enabled(lim, s, t, a)
    ensures Inv(lim, Effect(lim, s, t, a))
  {
    hide GlobalBound, IpBound;
    GlobalBoundKept(lim, s, t, a);
    forall ip ensures IpBound(lim, Effect(lim, s, t, a), ip) {
      IpBoundKept(lim, s, t, a, ip);
    }
  }

  lemma InitInv(lim: Limits, s: Sys)
    requires Init(s)
    ensures Inv(lim, s)
  {
    forall ip ensures IpBound(lim, s, ip) {
      assert Acquiring(s, ip) == {} && Open(s, ip) == {} && Closing(s, ip) == {};
    }
  }

  lemma ReachableInv(lim: Limits, run: seq<Sys>, i: nat)
    requires IsRun(Next(lim), run) && Init(run[0]) && i < |run|
    ensures Inv(lim, run[i])
  {
    InitInv(lim, run[0]);
    var inv := s => Inv(lim, s);
    forall s, s' | inv(s) && Next(lim)(s, s') ensures inv(s') {
      var t: Acquirer, a: Action :| Enabled(lim, s, t, a) && s' == Effect(lim, s, t, a);
      StepKeepsInv(lim, s, t, a);
    }
    Always(Next(lim), inv, run, i);
  }

  // ------------------------------------------------------------------ results

  /**
   In every interleaving of N acquirers the number of active connections is between 0 and
   globalMax + N - 1; the single accept loop never exceeds globalMax.
   */
  lemma ActiveBounded(lim: Limits, run: seq<Sys>, i: nat)
    requires IsRun(Next(lim), run) && Init(run[0]) && i < |run| && lim.members != {}
    ensures 0 <= run[i].active <= lim.globalMax + |lim.members| - 1
    ensures |lim.members| == 1 ==> run[i].active <= lim.globalMax
  {
    ReachableInv(lim, run, i);
  }

  /**
   Per IP the count never exceeds its limit nor the number of connections really held, and the
   difference is exactly what the 5-minute resets dropped and has not been released since.
   */
  lemma IpCountExact(lim: Limits, run: seq<Sys>, i: nat, ip: Ip)
    requires IsRun(Next(lim), run) && Init(run[0]) && i < |run|
    ensures 0 <= CountOf(run[i], ip) <= lim.perIpMax
    ensures CountOf(run[i], ip) == Held(run[i], ip) - LostOf(run[i], ip)
    ensures 0 <= LostOf(run[i], ip) && Held(run[i], ip) <= lim.perIpMax + LostOf(run[i], ip)
  {
    ReachableInv(lim, run, i);
    assert IpBound(lim, run[i], ip);
  }

  /** A step that drops a positive count because the IP was not seen for 5 minutes. */
  ghost predicate Resets(s: Sys, t: Acquirer, a: Action, ip: Ip) {
    a.CountIp? && PcOf(s, t) == Admitted(ip) && CountOf(s, ip) > 0 && s.now - s.counts[ip].lastAccess > RESET_AFTER
  }

  ghost predicate StepWithoutReset(lim: Limits, s: Sys, s': Sys, ip: Ip) {
    exists t: Acquirer, a: Action :: Enabled(lim, s, t, a) && s' == Effect(lim, s, t, a) && !Resets(s, t, a, ip)
  }

  lemma LostStays(lim: Limits, s: Sys, t: Acquirer, a: Action, ip: Ip)
    requires IpBound(lim, s, ip) && IpBound(lim, Effect(lim, s, t, a), ip)
    requires Enabled(lim, s, t, a) && LostOf(s, ip) == 0 && !Resets(s, t, a, ip)
    ensures LostOf(Effect(lim, s, t, a), ip) == 0
  {
  }

  /** Without such a reset the count is the number of connections held, so that number respects the limit. */
  lemma {:induction false} CountTrueWithoutResets(lim: Limits, run: seq<Sys>, i: nat, ip: Ip)
    requires IsRun(Next(lim), run) && Init(run[0]) && i < |run|
    requires forall j :: 0 < j < |run| ==> StepWithoutReset(lim, run[j - 1], run[j], ip)
    ensures CountOf(run[i], ip) == Held(run[i], ip) <= lim.perIpMax && LostOf(run[i], ip) == 0
  {
    ReachableInv(lim, run, i);
    assert IpBound(lim, run[i], ip);
    if i > 0 {
      CountTrueWithoutResets(lim, run, i - 1, ip);
      var s := run[i - 1];
      assert StepWithoutReset(lim, s, run[i], ip);
      var t: Acquirer, a: Action :| Enabled(lim, s, t, a) && run[i] == Effect(lim, s, t, a) && !Resets(s, t, a, ip);
      ReachableInv(lim, run, i - 1);
      assert IpBound(lim, s, ip);
      LostStays(lim, s, t, a, ip);
    }
  }

  // ------------------------------------------------------------------ the bounds are exact

  lemma Proceeds(lim: Limits, s0: Sys, s: Sys, t: Acquirer, a: Action) returns (s': Sys)
    requires Reaches(Next(lim), s0, s) && Enabled(lim, s, t, a)
    ensures s' == Effect(lim, s, t, a) && Reaches(Next(lim), s0, s')
  {
    s' := Effect(lim, s, t, a);
    assert Next(lim)(s, s');
    Extends(Next(lim), s0, s, s');
  }

  /** `k` connections, none of them released. */
  ghost predicate Loaded(s: Sys, k: nat) {
    s.active == k && s.leaving == map[] && forall c :: c in s.live ==> c < k
  }

  ghost predicate OthersSame(s: Sys, s': Sys, ts: set<Acquirer>) {
    forall u: Acquirer :: u !in ts ==> PcOf(s', u) == PcOf(s, u)
  }

  /** Nothing but the places of some acquirers differs. */
  ghost predicate OnlyPcs(s: Sys, s': Sys, ts: set<Acquirer>) {
    s'.active == s.active && s'.counts == s.counts && s'.now == s.now && s'.live == s.live && s'.leaving == s.leaving
    && OthersSame(s, s', ts)
  }

  lemma Admit(lim: Limits, s0: Sys, s: Sys, t: Acquirer, ip: Ip) returns (s': Sys)
    requires Reaches(Next(lim), s0, s) && t in lim.members && PcOf(s, t).Idle? && s.active < lim.globalMax
    ensures Reaches(Next(lim), s0, s') && PcOf(s', t) == Admitted(ip) && OnlyPcs(s, s', {t})
  {
    s' := Proceeds(lim, s0, s, t, TestGlobal(ip));
  }

  /** The counting and the increment of an admitted acquirer whose IP has room. */
  lemma Complete(lim: Limits, s0: Sys, s: Sys, t: Acquirer, ip: Ip, k: nat) returns (s': Sys)
    requires Reaches(Next(lim), s0, s) && Loaded(s, k) && t in lim.members && PcOf(s, t) == Admitted(ip)
    requires Effective(Entry(s.counts, ip), s.now) < lim.perIpMax
    ensures Reaches(Next(lim), s0, s') && Loaded(s', k + 1) && PcOf(s', t).Idle? && OthersSame(s, s', {t})
    ensures s'.now == s.now && s'.live == s.live[k := ip]
    ensures s'.counts == s.counts[ip := IpCount(Effective(Entry(s.counts, ip), s.now) + 1, s.now)]
  {
    s' := Proceeds(lim, s0, s, t, CountIp);
    s' := Proceeds(lim, s0, s', t, Increment(k));
  }

  /** All acquirers in `todo` pass the global test one after the other, before any of them goes on. */
  lemma {:induction false} AdmitAll(lim: Limits, s0: Sys, s: Sys, todo: set<Acquirer>, ipOf: Acquirer -> Ip) returns (s': Sys)
    requires Reaches(Next(lim), s0, s) && todo <= lim.members && s.active < lim.globalMax
    requires forall t :: t in todo ==> PcOf(s, t).Idle?
    ensures Reaches(Next(lim), s0, s') && OnlyPcs(s, s', todo)
    ensures forall t :: t in todo ==> PcOf(s', t) == Admitted(ipOf(t))
    decreases |todo|
  {
    if todo == {} { return s; }
    var t :| t in todo;
    var one := Admit(lim, s0, s, t, ipOf(t));
    s' := AdmitAll(lim, s0, one, todo - {t}, ipOf);
  }

  // ------------------------------------------------------------------ every connection from another IP

  function IpNumber(n: nat): Ip {
    seq(n, _ => 'a')
  }

  /** Numbers from `k` on stand for IPs without a connection. */
  ghost predicate UnusedFrom(s: Sys, k: nat) {
    forall n: nat :: n >= k ==> CountOf(s, IpNumber(n)) == 0
  }

  lemma NumbersApart(m: nat, n: nat)
    ensures IpNumber(m) == IpNumber(n) ==> m == n
  {
    assert |IpNumber(m)| == m && |IpNumber(n)| == n;
  }

  lemma {:induction false} FillApart(lim: Limits, s0: Sys, t: Acquirer, k: nat) returns (s: Sys)
    requires Init(s0) && t in lim.members && k <= lim.globalMax && lim.perIpMax > 0
    ensures Reaches(Next(lim), s0, s) && Loaded(s, k) && UnusedFrom(s, k) && forall u: Acquirer :: PcOf(s, u).Idle?
  {
    if k == 0 {
      Stays(Next(lim), s0);
      return s0;
    }
    var before := FillApart(lim, s0, t, k - 1);
    var ip := IpNumber(k - 1);
    assert CountOf(before, ip) == 0;
    var admitted := Admit(lim, s0, before, t, ip);
    s := Complete(lim, s0, admitted, t, ip, k - 1);
    forall u: Acquirer ensures PcOf(s, u).Idle? {
      if u != t { assert PcOf(s, u) == PcOf(admitted, u) == PcOf(before, u); }
    }
    forall n: nat | n >= k ensures CountOf(s, IpNumber(n)) == 0 {
      NumbersApart(n, k - 1);
      assert CountOf(before, IpNumber(n)) == 0;
    }
  }

  lemma {:induction false} CompleteApart(lim: Limits, s0: Sys, s: Sys, todo: set<Acquirer>, base: nat, k: nat) returns (s': Sys)
    requires Reaches(Next(lim), s0, s) && Loaded(s, k) && todo <= lim.members && lim.perIpMax > 0
    requires forall t: Acquirer :: t in todo ==> PcOf(s, t) == Admitted(IpNumber(base + t)) && CountOf(s, IpNumber(base + t)) == 0
    ensures Reaches(Next(lim), s0, s') && Loaded(s', k + |todo|)
    decreases |todo|
  {
    if todo == {} { return s; }
    var t :| t in todo;
    var one := Complete(lim, s0, s, t, IpNumber(base + t), k);
    forall u: Acquirer | u in todo - {t} ensures CountOf(one, IpNumber(base + u)) == 0 {
      NumbersApart(base + u, base + t);
    }
    s' := CompleteApart(lim, s0, one, todo - {t}, base, k + 1);
  }

  /** globalMax + N - 1 is reached, from every initial state and for all positive limits: the connections come from different IPs. */
  lemma BoundReached(lim: Limits, s0: Sys)
    requires Init(s0) && lim.members != {} && lim.globalMax > 0 && lim.perIpMax > 0
    ensures exists s :: Reaches(Next(lim), s0, s) && s.active == lim.globalMax + |lim.members| - 1
  {
    var t :| t in lim.members;
    var base := lim.globalMax - 1;
    var filled := FillApart(lim, s0, t, base);
    var admitted := AdmitAll(lim, s0, filled, lim.members, (u: Acquirer) => IpNumber(base + u));
    forall u: Acquirer | u in lim.members ensures CountOf(admitted, IpNumber(base + u)) == 0 {
      assert CountOf(filled, IpNumber(base + u)) == 0;
    }
    var s := CompleteApart(lim, s0, admitted, lim.members, base, base);
    assert s.active == lim.globalMax + |lim.members| - 1;
  }

  /** With a zero limit nobody gets past the test of that limit. */
  ghost predicate NobodyIn(lim: Limits, s: Sys) {
    && s.active == 0 && s.live == map[]
    && forall t :: !PcOf(s, t).Counted? && (lim.globalMax == 0 ==> PcOf(s, t).Idle?)
  }

  lemma NobodyInKept(lim: Limits, s: Sys, t: Acquirer, a: Action)
    requires Inv(lim, s) && NobodyIn(lim, s) && Enabled(lim, s, t, a) && (lim.globalMax == 0 || lim.perIpMax == 0)
    ensures NobodyIn(lim, Effect(lim, s, t, a))
  {
    var s' := Effect(lim, s, t, a);
    assert a.CountIp? ==> lim.perIpMax == 0 && IpBound(lim, s, PcOf(s, t).ip);
    forall u ensures !PcOf(s', u).Counted? && (lim.globalMax == 0 ==> PcOf(s', u).Idle?) {
      if u != t {
        assert PcOf(s', u) == PcOf(s, u);
      } else {
        assert !PcOf(s, t).Counted?;
        assert a.TestGlobal? && lim.globalMax == 0 ==> PcOf(s', t).Idle?;
      }
    }
  }

  lemma ZeroLimitHolds(lim: Limits, run: seq<Sys>, i: nat)
    requires IsRun(Next(lim), run) && Init(run[0]) && i < |run| && (lim.globalMax == 0 || lim.perIpMax == 0)
    ensures run[i].active == 0
  {
    hide Inv;
    InitInv(lim, run[0]);
    var inv := s => Inv(lim, s) && NobodyIn(lim, s);
    forall s, s' | inv(s) && Next(lim)(s, s') ensures inv(s') {
      var t: Acquirer, a: Action :| Enabled(lim, s, t, a) && s' == Effect(lim, s, t, a);
      StepKeepsInv(lim, s, t, a);
      NobodyInKept(lim, s, t, a);
    }
    Always(Next(lim), inv, run, i);
  }

  /** Whether a server with these limits keeps its global limit in every run. */
  predicate KeepsLimit(lim: Limits) {
    lim.globalMax == 0 || lim.perIpMax == 0 || |lim.members| <= 1
  }

  /** The global limit holds in every run if and only if there is at most one acquirer, or a limit is zero and admits nobody. */
  lemma GlobalLimitExact(lim: Limits)
    ensures (forall run: seq<Sys>, i: nat :: IsRun(Next(lim), run) && Init(run[0]) && i < |run| ==> run[i].active <= lim.globalMax)
            <==> KeepsLimit(lim)
  {
    if KeepsLimit(lim) {
      forall run: seq<Sys>, i: nat | IsRun(Next(lim), run) && Init(run[0]) && i < |run| ensures run[i].active <= lim.globalMax {
        ReachableInv(lim, run, i);
        if |lim.members| > 1 { ZeroLimitHolds(lim, run, i); }
      }
    } else {
      var s0 := Sys(0, map[], 0, map[], map[], map[], map[]);
      BoundReached(lim, s0);
      var s :| Reaches(Next(lim), s0, s) && s.active == lim.globalMax + |lim.members| - 1;
      var run: seq<Sys> :| IsRun(Next(lim), run) && run[0] == s0 && run[|run| - 1] == s;
      assert run[|run| - 1].active > lim.globalMax;
    }
  }

  // ------------------------------------------------------------------ all connections from one IP

  /** `k` connections of one IP, counted at the present time. */
  ghost predicate LoadedBy(s: Sys, ip: Ip, k: nat) {
    && Loaded(s, k) && (forall c :: c in s.live ==> s.live[c] == ip)
    && (if k == 0 then CountOf(s, ip) == 0 else Entry(s.counts, ip) == IpCount(k, s.now))
  }

  lemma {:induction false} FillSame(lim: Limits, s0: Sys, t: Acquirer, ip: Ip, k: nat) returns (s: Sys)
    requires Init(s0) && t in lim.members && k <= lim.globalMax && k <= lim.perIpMax
    ensures Reaches(Next(lim), s0, s) && LoadedBy(s, ip, k) && forall u: Acquirer :: PcOf(s, u).Idle?
  {
    if k == 0 {
      Stays(Next(lim), s0);
      return s0;
    }
    var before := FillSame(lim, s0, t, ip, k - 1);
    var admitted := Admit(lim, s0, before, t, ip);
    s := Complete(lim, s0, admitted, t, ip, k - 1);
    forall u: Acquirer ensures PcOf(s, u).Idle? {
      if u != t { assert PcOf(s, u) == PcOf(admitted, u) == PcOf(before, u); }
    }
  }

  lemma {:induction false} CompleteSame(lim: Limits, s0: Sys, s: Sys, todo: set<Acquirer>, ip: Ip, k: nat) returns (s': Sys)
    requires Reaches(Next(lim), s0, s) && LoadedBy(s, ip, k) && todo <= lim.members && k + |todo| <= lim.perIpMax
    requires forall t :: t in todo ==> PcOf(s, t) == Admitted(ip)
    ensures Reaches(Next(lim), s0, s') && LoadedBy(s', ip, k + |todo|) && OthersSame(s, s', todo)
    decreases |todo|
  {
    if todo == {} { return s; }
    var t :| t in todo;
    var one := Complete(lim, s0, s, t, ip, k);
    s' := CompleteSame(lim, s0, one, todo - {t}, ip, k + 1);
  }

  lemma {:induction false} SubsetOfSize(ts: set<Acquirer>, n: nat) returns (part: set<Acquirer>)
    requires n <= |ts|
    ensures part <= ts && |part| == n
  {
    if n == |ts| { return ts; }
    var t :| t in ts;
    part := SubsetOfSize(ts - {t}, n);
  }

  lemma OpenIsLive(lim: Limits, s0: Sys, s: Sys, ip: Ip)
    requires Init(s0) && Reaches(Next(lim), s0, s)
    ensures |Open(s, ip)| <= s.active
    ensures (forall c :: c in s.live ==> s.live[c] == ip) ==> |Open(s, ip)| == s.active
  {
    ReachedInv(lim, s0, s);
    Subset(Open(s, ip), s.live.Keys);
    if forall c :: c in s.live ==> s.live[c] == ip {
      assert Open(s, ip) == s.live.Keys;
    }
  }

  /** The IP's limit is full; five minutes later one more acquirer that waits behind the global test gets through. */
  lemma ExceedsAfterReset(lim: Limits, s0: Sys, full: Sys, t: Acquirer, ip: Ip) returns (s: Sys)
    requires Init(s0) && Reaches(Next(lim), s0, full) && LoadedBy(full, ip, lim.perIpMax) && lim.perIpMax > 0
    requires t in lim.members && PcOf(full, t) == Admitted(ip)
    ensures Reaches(Next(lim), s0, s) && |Open(s, ip)| == lim.perIpMax + 1
  {
    var later := Proceeds(lim, s0, full, t, Tick(RESET_AFTER + 1));
    s := Complete(lim, s0, later, t, ip, lim.perIpMax);
    OpenIsLive(lim, s0, s, ip);
  }

  /**
   A reset does let one IP have more connections open than its limit: from every initial state and for every IP,
   exactly if there is an acquirer, no limit is zero, and the server takes more connections than the IP's limit at all.
   */
  lemma ResetExceedsIpLimit(lim: Limits, s0: Sys, ip: Ip)
    requires Init(s0)
    ensures (exists s :: Reaches(Next(lim), s0, s) && |Open(s, ip)| > lim.perIpMax)
            <==> lim.members != {} && lim.globalMax > 0 && lim.globalMax + |lim.members| - 1 > lim.perIpMax > 0
  {
    if lim.members != {} && lim.globalMax > 0 && lim.globalMax + |lim.members| - 1 > lim.perIpMax > 0 {
      var t :| t in lim.members;
      var m := if lim.globalMax - 1 < lim.perIpMax then lim.globalMax - 1 else lim.perIpMax;
      var filled := FillSame(lim, s0, t, ip, m);
      var admitted := AdmitAll(lim, s0, filled, lim.members, (u: Acquirer) => ip);
      var first := SubsetOfSize(lim.members, lim.perIpMax - m);
      var full := CompleteSame(lim, s0, admitted, first, ip, m);
      assert first != lim.members;
      var u :| u in lim.members && u !in first;
      var s := ExceedsAfterReset(lim, s0, full, u, ip);
      assert |Open(s, ip)| > lim.perIpMax;
    } else {
      forall s | Reaches(Next(lim), s0, s) ensures |Open(s, ip)| <= lim.perIpMax {
        OpenIsLive(lim, s0, s, ip);
        ReachedInv(lim, s0, s);
        if lim.globalMax == 0 || lim.perIpMax == 0 {
          var run :| IsRun(Next(lim), run) && run[0] == s0 && run[|run| - 1] == s;
          ZeroLimitHolds(lim, run, |run| - 1);
        }
      }
    }
  }

  lemma ReachedInv(lim: Limits, s0: Sys, s: Sys)
    requires Init(s0) && Reaches(Next(lim), s0, s)
    ensures Inv(lim, s)
  {
    var run :| IsRun(Next(lim), run) && run[0] == s0 && run[|run| - 1] == s;
    ReachableInv(lim, run, |run| - 1);
  }

  // ------------------------------------------------------------------ connections that are never released

  /** A step that begins the release of none of these connections. */
  ghost function Keeping(lim: Limits, conns: set<Conn>): (Sys, Sys) -> bool {
    (s, s') => exists t: Acquirer, a: Action ::
      Enabled(lim, s, t, a) && s' == Effect(lim, s, t, a) && !(a.Decrement? && a.c in conns)
  }

  ghost predicate StillHeld(s0: Sys, s: Sys, conns: set<Conn>) {
    forall c :: c in conns ==> c in s0.live && c in s.live && s.live[c] == s0.live[c]
  }

  lemma HeldByStep(lim: Limits, s0: Sys, s: Sys, t: Acquirer, a: Action, conns: set<Conn>)
    requires Enabled(lim, s, t, a) && !(a.Decrement? && a.c in conns) && StillHeld(s0, s, conns)
    ensures StillHeld(s0, Effect(lim, s, t, a), conns)
  {
    LiveIs(lim, s, t, a);
  }

  lemma {:induction false} HeldAlong(lim: Limits, run: seq<Sys>, i: nat, j: nat, conns: set<Conn>)
    requires i <= j < |run| && conns <= run[i].live.Keys
    requires forall m :: i < m <= j ==> Keeping(lim, conns)(run[m - 1], run[m])
    ensures StillHeld(run[i], run[j], conns)
  {
    if i < j {
      hide Enabled, Effect, StillHeld;
      HeldAlong(lim, run, i, j - 1, conns);
      assert Keeping(lim, conns)(run[j - 1], run[j]);
      var t: Acquirer, a: Action :| Enabled(lim, run[j - 1], t, a) && run[j] == Effect(lim, run[j - 1], t, a) && !(a.Decrement? && a.c in conns);
      HeldByStep(lim, run[i], run[j - 1], t, a, conns);
    }
  }

  /**
   Open connections whose release never starts stay open, under the IPs they came from, and as many of them as
   the global limit shut the server: no later global test admits anybody.
   */
  lemma LeakedStayHeld(lim: Limits, run: seq<Sys>, i: nat, j: nat, conns: set<Conn>)
    requires IsRun(Next(lim), run) && Init(run[0]) && i <= j < |run| && conns <= run[i].live.Keys
    requires forall m :: i < m <= j ==> Keeping(lim, conns)(run[m - 1], run[m])
    ensures StillHeld(run[i], run[j], conns) && run[j].active >= |conns|
    ensures |conns| >= lim.globalMax ==>
              forall t: Acquirer, ip :: PcOf(Effect(lim, run[j], t, TestGlobal(ip)), t).Idle?
  {
    hide Keeping, Next;
    HeldAlong(lim, run, i, j, conns);
    ActiveIsLive(lim, run, j);
    Subset(conns, run[j].live.Keys);
  }

  lemma ActiveIsLive(lim: Limits, run: seq<Sys>, j: nat)
    requires IsRun(Next(lim), run) && Init(run[0]) && j < |run|
    ensures run[j].active == |run[j].live.Keys|
  {
    ReachableInv(lim, run, j);
    assert |run[j].live| == |run[j].live.Keys|;
  }

  // ------------------------------------------------------------------ when a count is reset, told from the run

  /** Step `j` was the locked section of an attempt from `ip`: an acquirer that had passed the global test is past it now. */
  ghost predicate Attempted(run: seq<Sys>, j: nat, ip: Ip) {
    0 < j < |run| && exists t: Acquirer :: PcOf(run[j - 1], t) == Admitted(ip) && PcOf(run[j], t) != Admitted(ip)
  }

  /** No attempt from `ip`, admitted or refused, ran its locked section before step `j` and within the last 300 seconds of it. */
  ghost predicate Quiet(run: seq<Sys>, j: nat, ip: Ip)
    requires 0 < j < |run|
  {
    forall k: nat :: 0 < k < j && Attempted(run, k, ip) ==> run[j - 1].now - run[k - 1].now > 300
  }

  /** What the entry of an IP remembers of a run: when its last attempt was, if there was one. */
  ghost predicate Remembers(run: seq<Sys>, i: nat, ip: Ip)
    requires i < |run|
  {
    && (forall k: nat :: 0 < k <= i && Attempted(run, k, ip) ==> ip in run[i].counts && run[k - 1].now <= run[i].counts[ip].lastAccess <= run[i].now)
    && (ip in run[i].counts ==> exists k: nat :: 0 < k <= i && Attempted(run, k, ip) && run[k - 1].now == run[i].counts[ip].lastAccess)
  }

  lemma AttemptIsCount(lim: Limits, run: seq<Sys>, j: nat, ip: Ip, t: Acquirer, a: Action)
    requires 0 < j < |run| && Enabled(lim, run[j - 1], t, a) && run[j] == Effect(lim, run[j - 1], t, a)
    ensures Attempted(run, j, ip) <==> a.CountIp? && PcOf(run[j - 1], t) == Admitted(ip)
  {
    if Attempted(run, j, ip) {
      var u: Acquirer :| PcOf(run[j - 1], u) == Admitted(ip) && PcOf(run[j], u) != Admitted(ip);
      OnlyOwnStep(lim, run[j - 1], t, a, u, ip);
    }
    if a.CountIp? && PcOf(run[j - 1], t) == Admitted(ip) {
      assert PcOf(run[j], t) != Admitted(ip);
    }
  }

  lemma EntryAfter(lim: Limits, s: Sys, t: Acquirer, a: Action, ip: Ip)
    requires Enabled(lim, s, t, a)
    ensures var s' := Effect(lim, s, t, a);
            && s.now <= s'.now
            && if a.CountIp? && PcOf(s, t) == Admitted(ip) then ip in s'.counts && s'.counts[ip].lastAccess == s.now
               else (ip in s'.counts <==> ip in s.counts) && (ip in s.counts ==> s'.counts[ip].lastAccess == s.counts[ip].lastAccess)
  {
  }

  lemma {:induction false} EntryRemembers(lim: Limits, run: seq<Sys>, i: nat, ip: Ip)
    requires IsRun(Next(lim), run) && Init(run[0]) && i < |run|
    ensures Remembers(run, i, ip)
  {
    hide Enabled, Effect, Attempted;
    if i == 0 {
      assert !Attempted(run, 0, ip) by { NotBeforeStart(run, ip); }
    } else {
      EntryRemembers(lim, run, i - 1, ip);
      var s := run[i - 1];
      assert Next(lim)(s, run[i]);
      var t: Acquirer, a: Action :| Enabled(lim, s, t, a) && run[i] == Effect(lim, s, t, a);
      AttemptIsCount(lim, run, i, ip, t, a);
      EntryAfter(lim, s, t, a, ip);
    }
  }

  lemma NotBeforeStart(run: seq<Sys>, ip: Ip)
    ensures !Attempted(run, 0, ip)
  {
  }

  lemma CountStep(lim: Limits, s: Sys, t: Acquirer, ip: Ip)
    requires Enabled(lim, s, t, CountIp) && PcOf(s, t) == Admitted(ip)
    ensures var s', n := Effect(lim, s, t, CountIp), if ip in s.counts && s.now - s.counts[ip].lastAccess <= 300 then CountOf(s, ip) else 0;
            && PcOf(s', t) == (if n < lim.perIpMax then Counted(ip) else Idle)
            && CountOf(s', ip) == if n < lim.perIpMax then n + 1 else n
  {
  }

  /**
   The per-IP test of every attempt in every run, told without the time that the entry keeps: the attempt is
   judged as if the IP held nothing exactly if no earlier attempt from it, admitted or refused, came within the
   last 300 seconds, and otherwise by its count; it is counted if that is below the limit, and not counted if not.
   */
  lemma AttemptJudged(lim: Limits, run: seq<Sys>, j: nat, ip: Ip, t: Acquirer)
    requires IsRun(Next(lim), run) && Init(run[0]) && 0 < j < |run|
    requires PcOf(run[j - 1], t) == Admitted(ip) && PcOf(run[j], t) != Admitted(ip)
    ensures var n := if Quiet(run, j, ip) then 0 else CountOf(run[j - 1], ip);
            && PcOf(run[j], t) == (if n < lim.perIpMax then Counted(ip) else Idle)
            && CountOf(run[j], ip) == if n < lim.perIpMax then n + 1 else n
  {
    hide Effect, Attempted;
    var s := run[j - 1];
    assert Next(lim)(s, run[j]);
    var u: Acquirer, a: Action :| Enabled(lim, s, u, a) && run[j] == Effect(lim, s, u, a);
    assert u == t && a.CountIp? by { OnlyOwnStep(lim, s, u, a, t, ip); }
    EntryRemembers(lim, run, j - 1, ip);
    CountStep(lim, s, t, ip);
    QuietIsStale(run, j, ip);
  }

  lemma OnlyOwnStep(lim: Limits, s: Sys, u: Acquirer, a: Action, t: Acquirer, ip: Ip)
    requires Enabled(lim, s, u, a) && PcOf(s, t) == Admitted(ip) && PcOf(Effect(lim, s, u, a), t) != Admitted(ip)
    ensures u == t && a.CountIp?
  {
  }

  lemma QuietIsStale(run: seq<Sys>, j: nat, ip: Ip)
    requires 0 < j < |run| && Remembers(run, j - 1, ip)
    ensures Quiet(run, j, ip) <==> !(ip in run[j - 1].counts && run[j - 1].now - run[j - 1].counts[ip].lastAccess <= 300)
  {
    hide Attempted;
    var s := run[j - 1];
    if ip in s.counts {
      var k: nat :| 0 < k <= j - 1 && Attempted(run, k, ip) && run[k - 1].now == s.counts[ip].lastAccess;
    }
  }
}
