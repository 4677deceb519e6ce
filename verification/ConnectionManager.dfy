/** The connection manager and the accept loop that uses it, with releasers running in between. */
module ConnectionManager {
  import opened Runs
  import opened AdmissionProtocol

  /**
   A step of anyone but acquirer `t`: other acquirers, the clock, and releasers of any connection
   but those in `mine`, which are released by their owner alone.
   */
  ghost function OtherNext(lim: Limits, t: Acquirer, mine: set<Conn>): (Sys, Sys) -> bool {
    (s, s') => exists u: Acquirer, a: Action :: Foreign(t, mine, u, a) && Enabled(lim, s, u, a) && s' == Effect(lim, s, u, a)
  }

  predicate Foreign(t: Acquirer, mine: set<Conn>, u: Acquirer, a: Action) {
    match a
    case TestGlobal(_) => u != t
    case CountIp => u != t
    case Increment(_) => u != t
    case Decrement(c) => c !in mine
    case UncountIp(c) => c !in mine
    case Tick(_) => true
  }

  /** What foreign steps leave alone. */
  ghost predicate Untouched(t: Acquirer, mine: set<Conn>, s: Sys, s': Sys) {
    && PcOf(s', t) == PcOf(s, t)
    && (forall c :: c in mine && c in s.live ==> c in s'.live && s'.live[c] == s.live[c])
    && (forall c :: c in mine && c in s.leaving ==> c in s'.leaving && s'.leaving[c] == s.leaving[c])
  }

  lemma ForeignStep(lim: Limits, t: Acquirer, mine: set<Conn>, s: Sys, u: Acquirer, a: Action)
    requires Foreign(t, mine, u, a) && Enabled(lim, s, u, a)
    ensures Untouched(t, mine, s, Effect(lim, s, u, a))
  {
  }

  lemma {:induction false} OthersRun(lim: Limits, t: Acquirer, mine: set<Conn>, run: seq<Sys>)
    requires IsRun(OtherNext(lim, t, mine), run)
    ensures Reaches(Next(lim), run[0], run[|run| - 1]) && Untouched(t, mine, run[0], run[|run| - 1])
    decreases |run|
  {
    if |run| == 1 {
      Stays(Next(lim), run[0]);
    } else {
      var shorter := run[..|run| - 1];
      assert IsRun(OtherNext(lim, t, mine), shorter);
      OthersRun(lim, t, mine, shorter);
      var s, s' := run[|run| - 2], run[|run| - 1];
      assert OtherNext(lim, t, mine)(s, s');
      var u: Acquirer, a: Action :| Foreign(t, mine, u, a) && Enabled(lim, s, u, a) && s' == Effect(lim, s, u, a);
      ForeignStep(lim, t, mine, s, u, a);
      assert Next(lim)(s, s');
      Extends(Next(lim), run[0], s, s');
    }
  }

  lemma Took(lim: Limits, start: Sys, t: Acquirer, a: Action, s: Sys, s': Sys)
    requires Reaches(Next(lim), start, s) && Enabled(lim, s, t, a) && s' == Effect(lim, s, t, a)
    ensures Reaches(Next(lim), start, s')
  {
    assert Next(lim)(s, s');
    Extends(Next(lim), start, s, s');
  }

  class ConnectionManager {
    const lim: Limits
    var activeConnections: int
    var ipConnections: map<Ip, IpCount>
    var now: int
    ghost var pcs: map<Acquirer, Pc>
    var live: map<Conn, Ip>     // handles of the connections held, one per successful acquisition
    var leaving: map<Conn, Ip>
    ghost var lost: map<Ip, int>

    ghost function World(): Sys
      reads this
    {
      Sys(activeConnections, ipConnections, now, pcs, live, leaving, lost)
    }

    constructor (lim: Limits)
      ensures this.lim == lim && Init(World()) && now == 0
    {
      this.lim := lim;
      activeConnections, ipConnections, now, pcs, live, leaving, lost := 0, map[], 0, map[], map[], map[], map[];
    }

    /** Nothing promised: others run for as long as they like. */
    method Yield(ghost t: Acquirer, ghost mine: set<Conn>, ghost alone: bool)
      modifies this
      ensures Reaches(OtherNext(lim, t, mine), old(World()), World())
      ensures alone ==> World() == old(World())
    {
      Stays(OtherNext(lim, t, mine), World());
    }

    method Pause(ghost t: Acquirer, ghost mine: set<Conn>, ghost start: Sys, ghost alone: bool)
      requires Reaches(Next(lim), start, World())
      modifies this
      ensures Reaches(Next(lim), start, World()) && Untouched(t, mine, old(World()), World())
      ensures alone ==> World() == old(World())
    {
      ghost var s := World();
      Yield(t, mine, alone);
      ghost var run :| IsRun(OtherNext(lim, t, mine), run) && run[0] == s && run[|run| - 1] == World();
      OthersRun(lim, t, mine, run);
      Joins(Next(lim), start, s, World());
    }

    /** A handle nobody holds. */
    method NewHandle() returns (c: Conn)
      ensures c !in live && c !in leaving
    {
      c := 0;
      var rest := live.Keys + leaving.Keys;
      ghost var all := rest;
      while rest != {}
        invariant rest <= all && forall d :: d in all && d !in rest ==> d < c
      {
        var d :| d in rest;
        rest := rest - {d};
        c := if d < c then c else d + 1;
      }
    }

    /**
     tryAcquireConnection: the global test, the per-IP count under the mutex, the global increment.
     Undisturbed it admits exactly if both limits leave room, counting an IP not seen for 5 minutes
     as unused.
     */
    method TryAcquireConnection(t: Acquirer, ip: Ip, ghost start: Sys, ghost alone: bool)
      returns (ok: bool, c: Conn)
      requires Reaches(Next(lim), start, World()) && t in lim.members && PcOf(World(), t).Idle?
      modifies this
      ensures Reaches(Next(lim), start, World()) && PcOf(World(), t).Idle?
      ensures ok ==> c in live && live[c] == ip
      ensures alone ==> now == old(now)
      ensures alone ==>
                ok == (old(activeConnections) < lim.globalMax && Effective(Entry(old(ipConnections), ip), now) < lim.perIpMax)
      ensures alone && ok ==> activeConnections == old(activeConnections) + 1
                              && CountOf(World(), ip) == Effective(Entry(old(ipConnections), ip), now) + 1
                              && live.Keys == old(live).Keys + {c} && c !in old(live)
      ensures alone && !ok ==> activeConnections == old(activeConnections) && live == old(live)
      ensures alone ==> forall other :: other != ip ==> CountOf(World(), other) == CountOf(old(World()), other)
    {
      ok, c := false, 0;
      ghost var s := World();
      var current := activeConnections;
      pcs := pcs[t := if current >= lim.globalMax then Idle else Admitted(ip)];
      Took(lim, start, t, TestGlobal(ip), s, World());
      if current >= lim.globalMax { return; }
      Pause(t, {}, start, alone);
      var counted := CountForIp(t, ip, start);
      if !counted { return; }
      Pause(t, {}, start, alone);
      c := CountGlobally(t, ip, start);
      ok := true;
    }

    /** The increment at the end of tryAcquireConnection. */
    method CountGlobally(t: Acquirer, ip: Ip, ghost start: Sys) returns (c: Conn)
      requires Reaches(Next(lim), start, World()) && t in lim.members && PcOf(World(), t) == Counted(ip)
      modifies this
      ensures Reaches(Next(lim), start, World()) && World() == Effect(lim, old(World()), t, Increment(c))
      ensures c !in old(live)
    {
      hide Reaches, Next;
      c := NewHandle();
      ghost var s := World();
      activeConnections := activeConnections + 1;
      live := live[c := ip];
      pcs := pcs[t := Idle];
      Took(lim, start, t, Increment(c), s, World());
    }

    /** The locked section of tryAcquireConnection. */
    method CountForIp(t: Acquirer, ip: Ip, ghost start: Sys) returns (counted: bool)
      requires Reaches(Next(lim), start, World()) && t in lim.members && PcOf(World(), t) == Admitted(ip)
      modifies this
      ensures Reaches(Next(lim), start, World()) && World() == Effect(lim, old(World()), t, CountIp)
      ensures PcOf(World(), t) == if counted then Counted(ip) else Idle
      ensures counted == (Effective(Entry(old(ipConnections), ip), now) < lim.perIpMax)
    {
      hide Reaches, Next;
      ghost var s := World();
      var entry := Entry(ipConnections, ip);
      var count := entry.count;
      if now - entry.lastAccess > RESET_AFTER {
        count := 0;
      }
      lost := lost[ip := LostOf(s, ip) + (entry.count - count)];
      counted := count < lim.perIpMax;
      if counted {
        count := count + 1;
      }
      ipConnections := ipConnections[ip := IpCount(count, now)];
      pcs := pcs[t := if counted then Counted(ip) else Idle];
      Took(lim, start, t, CountIp, s, World());
    }

    /** releaseConnection, called once per acquired connection: the two decrements are two steps. */
    method ReleaseConnection(c: Conn, ghost t: Acquirer, ghost start: Sys, ghost alone: bool)
      requires Reaches(Next(lim), start, World()) && c in live
      modifies this
      ensures Reaches(Next(lim), start, World()) && PcOf(World(), t) == PcOf(old(World()), t)
      ensures c !in leaving
      ensures alone ==> activeConnections == old(activeConnections) - 1 && live == old(live) - {c}
      ensures alone ==> CountOf(World(), old(live)[c])
                        == (var n := CountOf(old(World()), old(live)[c]); if n > 0 then n - 1 else n)
      ensures alone ==> forall other :: other != old(live)[c] ==> CountOf(World(), other) == CountOf(old(World()), other)
    {
      hide Reaches, Next;
      ghost var s := World();
      var ip := live[c];
      activeConnections := activeConnections - 1;
      live, leaving := live - {c}, leaving[c := ip];
      Took(lim, start, t, Decrement(c), s, World());
      Pause(t, {c}, start, alone);
      UncountForIp(c, ip, t, start);
    }

    /** The locked section of releaseConnection. */
    method UncountForIp(c: Conn, ip: Ip, ghost t: Acquirer, ghost start: Sys)
      requires Reaches(Next(lim), start, World()) && c in leaving && leaving[c] == ip
      modifies this
      ensures Reaches(Next(lim), start, World()) && World() == Effect(lim, old(World()), t, UncountIp(c))
    {
      hide Reaches, Next;
      ghost var s := World();
      leaving := leaving - {c};
      if ip in ipConnections && ipConnections[ip].count > 0 {
        ipConnections := ipConnections[ip := ipConnections[ip].(count := ipConnections[ip].count - 1)];
      } else {
        lost := lost[ip := LostOf(s, ip) - 1];
      }
      Took(lim, start, t, UncountIp(c), s, World());
    }

    method GetConnectionsForIP(ip: Ip, ghost start: Sys) returns (n: int)
      requires Init(start) && Reaches(Next(lim), start, World())
      ensures n == CountOf(World(), ip) && 0 <= n <= lim.perIpMax && n <= Held(World(), ip)
    {
      ReachedInv(lim, start, World());
      assert IpBound(lim, World(), ip);
      n := if ip in ipConnections then ipConnections[ip].count else 0;
    }
  }

  /**
   One round of the accept loop of the SMTP server: the limit is tested before accepting, the
   connection is acquired, and given back if the rate limiter refuses it. With this loop as the only
   acquirer the number of active connections never exceeds the limit.
   */
  method AcceptRound(m: ConnectionManager, t: Acquirer, ip: Ip, withinRate: bool, ghost start: Sys, ghost alone: bool)
    returns (served: bool)
    requires m.lim.members == {t} && Init(start) && Reaches(Next(m.lim), start, m.World()) && PcOf(m.World(), t).Idle?
    modifies m
    ensures Reaches(Next(m.lim), start, m.World()) && PcOf(m.World(), t).Idle?
    ensures 0 <= m.activeConnections <= m.lim.globalMax
    ensures served ==> withinRate
    ensures alone ==> m.activeConnections == old(m.activeConnections) + (if served then 1 else 0)
    ensures alone ==> served == (withinRate && old(m.activeConnections) < m.lim.globalMax
                                 && Effective(Entry(old(m.ipConnections), ip), old(m.now)) < m.lim.perIpMax)
  {
    served := false;
    if m.activeConnections < m.lim.globalMax {
      m.Pause(t, {}, start, alone);
      var ok, c := m.TryAcquireConnection(t, ip, start, alone);
      if ok {
        if withinRate {
          served := true;
        } else {
          m.ReleaseConnection(c, t, start, alone);
        }
      }
    }
    ReachedInv(m.lim, start, m.World());
  }
}
