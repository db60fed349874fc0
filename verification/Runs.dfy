/** Runs of a state machine, and the one induction that every invariant of a run needs. */
module Runs {
  function Fold<S, A>(step: (S, A) -> S, s: S, actions: seq<A>): S
    decreases |actions|
  {
    if actions == [] then s else step(Fold(step, s, actions[..|actions| - 1]), actions[|actions| - 1])
  }

  ghost predicate Inductive<S(!new), A(!new)>(step: (S, A) -> S, inv: S -> bool) {
    forall s, a :: inv(s) ==> inv(step(s, a))
  }

  lemma {:induction false} FoldKeeps<S(!new), A(!new)>(step: (S, A) -> S, inv: S -> bool, s: S, actions: seq<A>)
    requires inv(s) && Inductive(step, inv)
    ensures inv(Fold(step, s, actions))
    decreases |actions|
  {
    if actions == [] {
    } else {
      FoldKeeps(step, inv, s, actions[..|actions| - 1]);
    }
  }

  /** The same for runs of a certain kind of actions. */
  ghost predicate InductiveFor<S(!new), A(!new)>(step: (S, A) -> S, inv: S -> bool, kind: A -> bool) {
    forall s, a :: inv(s) && kind(a) ==> inv(step(s, a))
  }

  lemma {:induction false} FoldKeepsFor<S(!new), A(!new)>(step: (S, A) -> S, inv: S -> bool, kind: A -> bool, s: S,
                                                          actions: seq<A>)
    requires inv(s) && InductiveFor(step, inv, kind) && forall i :: 0 <= i < |actions| ==> kind(actions[i])
    ensures inv(Fold(step, s, actions))
    decreases |actions|
  {
    if actions == [] {
    } else {
      FoldKeepsFor(step, inv, kind, s, actions[..|actions| - 1]);
    }
  }

  lemma FoldSnoc<S, A>(step: (S, A) -> S, s: S, actions: seq<A>, last: A)
    ensures Fold(step, s, actions + [last]) == step(Fold(step, s, actions), last)
  {
    assert (actions + [last])[..|actions|] == actions;
  }

  lemma {:induction false} FoldConcat<S, A>(step: (S, A) -> S, s: S, first: seq<A>, second: seq<A>)
    ensures Fold(step, s, first + second) == Fold(step, Fold(step, s, first), second)
    decreases |second|
  {
    if second == [] {
      assert first + second == first;
    } else {
      var init := second[..|second| - 1];
      assert (first + second)[..|first + second| - 1] == first + init;
      FoldConcat(step, s, first, init);
    }
  }
}
