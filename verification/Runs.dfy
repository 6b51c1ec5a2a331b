/** Runs of a state machine given by its step relation. */
module Runs {

  ghost predicate IsRun<S(!new)>(step: (S, S) -> bool, states: seq<S>) {
    |states| > 0 && forall i :: 0 < i < |states| ==> step(states[i - 1], states[i])
  }

  /** What the first state has and every step keeps, every state has. */
  lemma {:induction false} KeptByRun<S(!new)>(step: (S, S) -> bool, inv: S -> bool, states: seq<S>, i: nat)
    requires IsRun(step, states) && inv(states[0]) && i < |states|
    requires forall s, t :: inv(s) && step(s, t) ==> inv(t)
    ensures inv(states[i])
  {
    if i > 0 {
      KeptByRun(step, inv, states, i - 1);
      assert step(states[i - 1], states[i]);
    }
  }

  /** What grows at every step is at least as large at every later state. */
  lemma {:induction false} GrowsAlongRun<S(!new),
    T>(step: (S, S) -> bool, inv: S -> bool, part: S -> set<T>, states: seq<S>, i: nat, j: nat)
    requires IsRun(step, states) && inv(states[0]) && i <= j < |states|
    requires forall s, t :: inv(s) && step(s, t) ==> inv(t) && part(s) <= part(t)
    ensures part(states[i]) <= part(states[j])
  {
    if i < j {
      GrowsAlongRun(step, inv, part, states, i, j - 1);
      KeptByRun(step, inv, states, j - 1);
      assert step(states[j - 1], states[j]);
    }
  }

  lemma TwoSteps<S(!new)>(step: (S, S) -> bool, a: S, b: S, c: S)
    requires step(a, b) && step(b, c)
    ensures IsRun(step, [a, b, c])
  {
  }

  lemma ThreeSteps<S(!new)>(step: (S, S) -> bool, a: S, b: S, c: S, d: S)
    requires step(a, b) && step(b, c) && step(c, d)
    ensures IsRun(step, [a, b, c, d])
  {
  }

  /** A run that goes on where another ends. */
  lemma JoinRuns<S(!new)>(step: (S, S) -> bool, a: seq<S>, b: seq<S>)
    requires IsRun(step, a) && IsRun(step, b) && a[|a| - 1] == b[0]
    ensures IsRun(step, a + b[1..]) && (a + b[1..])[0] == a[0] && (a + b[1..])[|a| + |b| - 2] == b[|b| - 1]
  {
    var c := a + b[1..];
    forall i | 0 < i < |c| ensures step(c[i - 1], c[i]) {
      assert i < |a| ==> c[i - 1] == a[i - 1] && c[i] == a[i];
      assert i >= |a| ==> c[i - 1] == b[i - |a|] && c[i] == b[i - |a| + 1];
    }
  }
}
