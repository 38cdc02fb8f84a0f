/** Executions of a transition system, and what holds along them. */
module Transitions {

  /** `states` is an execution of the actions under a step relation. */
  ghost predicate Execution<S(!new), A(!new)>(step: (S, A, S) -> bool, states: seq<S>, actions: seq<A>) {
    && |states| == |actions| + 1
    && forall i :: 0 <= i < |actions| ==> step(states[i], actions[i], states[i + 1])
  }

  ghost predicate Reachable<S(!new), A(!new)>(init: S -> bool, step: (S, A, S) -> bool, s: S) {
    exists states, actions :: Execution(step, states, actions) && init(states[0]) && states[|actions|] == s
  }

  ghost predicate Preserves<S(!new), A(!new)>(step: (S, A, S) -> bool, inv: S -> bool) {
    forall s, a, t :: inv(s) && step(s, a, t) ==> inv(t)
  }

  /** An invariant of the steps holds along every execution that starts in it. */
  lemma {:induction false} InvariantAlong<S(!new), A(!new)>(
    step: (S, A, S) -> bool, inv: S -> bool, states: seq<S>, actions: seq<A>, i: nat)
    requires Execution(step, states, actions) && Preserves(step, inv) && inv(states[0]) && i < |states|
    ensures inv(states[i])
  {
    if i > 0 {
      InvariantAlong(step, inv, states, actions, i - 1);
      assert step(states[i - 1], actions[i - 1], states[i - 1 + 1]);
    }
  }

  lemma InvariantHolds<S(!new), A(!new)>(init: S -> bool, step: (S, A, S) -> bool, inv: S -> bool, s: S)
    requires Reachable(init, step, s) && Preserves(step, inv) && forall s0 :: init(s0) ==> inv(s0)
    ensures inv(s)
  {
    var states, actions :| Execution(step, states, actions) && init(states[0]) && states[|actions|] == s;
    InvariantAlong(step, inv, states, actions, |actions|);
  }

  lemma ReachesInit<S(!new), A(!new)>(init: S -> bool, step: (S, A, S) -> bool, s: S)
    requires init(s)
    ensures Reachable(init, step, s)
  {
    var states: seq<S>, actions: seq<A> := [s], [];
    assert Execution(step, states, actions) && states[|actions|] == s;
  }

  lemma ReachesStep<S(!new), A(!new)>(init: S -> bool, step: (S, A, S) -> bool, s: S, a: A, t: S)
    requires Reachable(init, step, s) && step(s, a, t)
    ensures Reachable(init, step, t)
  {
    var states, actions :| Execution(step, states, actions) && init(states[0]) && states[|actions|] == s;
    var states', actions' := states + [t], actions + [a];
    assert Execution(step, states', actions') && init(states'[0]) && states'[|actions'|] == t;
  }

  /** Some execution goes from `s` to `t`. */
  ghost predicate Leads<S(!new), A(!new)>(step: (S, A, S) -> bool, s: S, t: S) {
    exists states, actions :: Execution(step, states, actions) && states[0] == s && states[|actions|] == t
  }

  lemma LeadsSelf<S(!new), A(!new)>(step: (S, A, S) -> bool, s: S)
    ensures Leads(step, s, s)
  {
    var states: seq<S>, actions: seq<A> := [s], [];
    assert Execution(step, states, actions) && states[|actions|] == s;
  }

  lemma LeadsFirst<S(!new), A(!new)>(step: (S, A, S) -> bool, s: S, a: A, t: S, u: S)
    requires step(s, a, t) && Leads(step, t, u)
    ensures Leads(step, s, u)
  {
    var states, actions :| Execution(step, states, actions) && states[0] == t && states[|actions|] == u;
    var states', actions' := [s] + states, [a] + actions;
    assert Execution(step, states', actions') && states'[0] == s && states'[|actions'|] == u;
  }
}
