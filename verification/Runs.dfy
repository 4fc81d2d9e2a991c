/** Runs of a machine, and the induction that all the machines share. */
module Runs {

  ghost predicate StepAt<S(!new)>(run: seq<S>, next: (S, S) -> bool, i: nat) requires i + 1 < |run| {
    next(run[i], run[i + 1])
  }

  ghost predicate RunOf<S(!new)>(run: seq<S>, init: S -> bool, next: (S, S) -> bool) {
    && |run| > 0 && init(run[0])
    && forall i | 0 <= i < |run| - 1 :: StepAt(run, next, i)
  }

  lemma Extend<S(!new)>(run: seq<S>, init: S -> bool, next: (S, S) -> bool, t: S)
    requires RunOf(run, init, next) && next(run[|run| - 1], t)
    ensures RunOf(run + [t], init, next)
  {
    var r := run + [t];
    forall i | 0 <= i < |r| - 1 ensures StepAt(r, next, i) {
      if i < |run| - 1 { assert StepAt(run, next, i); }
    }
  }

  /** What holds at the start and is kept by every step holds throughout. */
  lemma {:induction false} Always<S(!new)>(run: seq<S>, init: S -> bool, next: (S, S) -> bool, inv: S -> bool, i: nat)
    requires RunOf(run, init, next) && i < |run|
    requires forall s | init(s) :: inv(s)
    requires forall s, t | inv(s) && next(s, t) :: inv(t)
    ensures inv(run[i])
  {
    if i > 0 {
      Always(run, init, next, inv, i - 1);
      assert StepAt(run, next, i - 1);
    }
  }
}
