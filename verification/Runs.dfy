/**
 Runs of a step relation: finite sequences of states in which every state follows from the one before.
 The protocol modules state their safety results over all runs of their own relation.
 */
module Runs {

  ghost predicate IsRun<S(!new)>(next: (S, S) -> bool, run: seq<S>) {
    run != [] && forall i :: 0 < i < |run| ==> next(run[i - 1], run[i])
  }

  /** Some run leads from s to t. */
  ghost predicate Reaches<S(!new)>(next: (S, S) -> bool, s: S, t: S) {
    exists run :: IsRun(next, run) && run[0] == s && run[|run| - 1] == t
  }

  ghost predicate Inductive<S(!new)>(next: (S, S) -> bool, inv: S -> bool) {
    forall s, t :: inv(s) && next(s, t) ==> inv(t)
  }

  /** A property that every step keeps holds in every state of a run that starts with it. */
  lemma {:induction false} Always<S(!new)>(next: (S, S) -> bool, inv: S -> bool, run: seq<S>, i: nat)
    requires IsRun(next, run) && inv(run[0]) && Inductive(next, inv) && i < |run|
    ensures inv(run[i])
  {
    if i > 0 {
      Always(next, inv, run, i - 1);
    }
  }

  lemma Stays<S(!new)>(next: (S, S) -> bool, s: S)
    ensures Reaches(next, s, s)
  {
    assert IsRun(next, [s]);
  }

  lemma Extends<S(!new)>(next: (S, S) -> bool, s: S, t: S, u: S)
    requires Reaches(next, s, t) && next(t, u)
    ensures Reaches(next, s, u)
  {
    var run :| IsRun(next, run) && run[0] == s && run[|run| - 1] == t;
    assert IsRun(next, run + [u]);
  }

  lemma Joins<S(!new)>(next: (S, S) -> bool, s: S, t: S, u: S)
    requires Reaches(next, s, t) && Reaches(next, t, u)
    ensures Reaches(next, s, u)
  {
    var a :| IsRun(next, a) && a[0] == s && a[|a| - 1] == t;
    var b :| IsRun(next, b) && b[0] == t && b[|b| - 1] == u;
    var run := a + b[1..];
    forall i | 0 < i < |run| ensures next(run[i - 1], run[i]) {
      if i >= |a| {
        assert run[i] == b[i - |a| + 1] && run[i - 1] == b[i - |a|];
      }
    }
    assert IsRun(next, run);
  }

  lemma ReachesKeeps<S(!new)>(next: (S, S) -> bool, inv: S -> bool, s: S, t: S)
    requires Reaches(next, s, t) && inv(s) && Inductive(next, inv)
    ensures inv(t)
  {
    var run :| IsRun(next, run) && run[0] == s && run[|run| - 1] == t;
    Always(next, inv, run, |run| - 1);
  }
}
