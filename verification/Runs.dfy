/** Runs of a guarded transition system.

    A step function returns `None` for an action that is not enabled.  A run is a sequence of
    actions; `Run` gives the state it ends in, or `None` when some action was not enabled. */
module Runs {
  import opened Options

  function Run<S, A>(step: (S, A) -> Option<S>, start: S, actions: seq<A>): Option<S>
    decreases |actions|
  {
    if actions == [] then Some(start)
    else
      match Run(step, start, actions[..|actions| - 1])
      case None => None
      case Some(s) => step(s, actions[|actions| - 1])
  }

  /** A property of the start state that every enabled step keeps holds at the end of every run. */
  lemma {:induction false} RunPreserves<S(!new), A(!new)>(
    step: (S, A) -> Option<S>, inv: S -> bool, start: S, actions: seq<A>)
    requires inv(start)
    requires forall s, a :: inv(s) && step(s, a).Some? ==> inv(step(s, a).value)
    ensures Run(step, start, actions).Some? ==> inv(Run(step, start, actions).value)
    decreases |actions|
  {
    if actions != [] {
      RunPreserves(step, inv, start, actions[..|actions| - 1]);
    }
  }

  /** A run may be cut anywhere: its end is what the rest of it reaches from the cut. */
  lemma {:induction false} RunAppend<S, A>(
    step: (S, A) -> Option<S>, start: S, first: seq<A>, second: seq<A>)
    ensures Run(step, start, first + second) ==
            match Run(step, start, first)
            case None => None
            case Some(s) => Run(step, s, second)
    decreases |second|
  {
    if second == [] {
      assert first + second == first;
    } else {
      var n := |second| - 1;
      assert (first + second)[..|first + second| - 1] == first + second[..n];
      RunAppend(step, start, first, second[..n]);
    }
  }

  /** One more enabled action at the end of a run: for building concrete runs step by step. */
  lemma Extend<S, A>(step: (S, A) -> Option<S>, start: S, actions: seq<A>, s: S, a: A)
    returns (actions': seq<A>, s': S)
    requires Run(step, start, actions) == Some(s)
    requires step(s, a).Some?
    ensures Run(step, start, actions') == Some(s') && step(s, a) == Some(s') && actions' == actions + [a]
  {
    actions', s' := actions + [a], step(s, a).value;
    assert actions'[..|actions'| - 1] == actions;
  }
}
