/** Runs of a state machine whose steps carry a label. */
module Runs {
  ghost predicate AllSteps<S(!new), C(!new)>(states: seq<S>, labels: seq<C>, safe: (S, C, S) -> bool) {
    |states| == |labels| + 1 && forall k :: 0 <= k < |labels| ==> safe(states[k], labels[k], states[k + 1])
  }

  lemma ExtendSteps<S(!new), C(!new)>(states: seq<S>, labels: seq<C>, step: (S, C, S) -> bool, last: C, next: S)
    requires AllSteps(states, labels, step) && step(states[|labels|], last, next)
    ensures AllSteps(states + [next], labels + [last], step)
  {
    var longer, more := states + [next], labels + [last];
    forall k | 0 <= k < |more|
      ensures step(longer[k], more[k], longer[k + 1])
    {
      if k < |labels| { assert step(states[k], labels[k], states[k + 1]); }
    }
  }

  // What safe steps keep holds in every state of a run of safe steps.
  lemma {:induction false} SafeRunKeeps<S(!new), C(!new)>(
    states: seq<S>, labels: seq<C>, step: (S, C, S) -> bool, safe: (S, C, S) -> bool, good: S -> bool, i: nat)
    requires AllSteps(states, labels, step) && AllSteps(states, labels, safe) && good(states[0]) && i < |states|
    requires forall s, c, t :: good(s) && step(s, c, t) && safe(s, c, t) ==> good(t)
    ensures good(states[i])
  {
    if i > 0 {
      SafeRunKeeps(states, labels, step, safe, good, i - 1);
      var s, c, t := states[i - 1], labels[i - 1], states[i - 1 + 1];
      assert step(s, c, t) && safe(s, c, t);
    }
  }

  // If the safe steps are exactly those that keep something, it holds all along a run exactly
  // if every step is safe.
  lemma RunKeepsIff<S(!new), C(!new)>(
    states: seq<S>, labels: seq<C>, step: (S, C, S) -> bool, safe: (S, C, S) -> bool, good: S -> bool)
    requires AllSteps(states, labels, step) && good(states[0])
    requires forall s, c, t :: good(s) && step(s, c, t) ==> (good(t) <==> safe(s, c, t))
    ensures (forall i :: 0 <= i < |states| ==> good(states[i])) <==> AllSteps(states, labels, safe)
  {
    if AllSteps(states, labels, safe) {
      forall i | 0 <= i < |states|
        ensures good(states[i])
      {
        SafeRunKeeps(states, labels, step, safe, good, i);
      }
    }
    if forall i :: 0 <= i < |states| ==> good(states[i]) {
      forall k | 0 <= k < |labels|
        ensures safe(states[k], labels[k], states[k + 1])
      {
        assert step(states[k], labels[k], states[k + 1]) && good(states[k]) && good(states[k + 1]);
      }
    }
  }
}
