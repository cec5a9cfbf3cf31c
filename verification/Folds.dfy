/** Running a step that can fail over the numbers below n, and what is known of every such run. */
module Folds {
  import opened Text

  function Fold<S, E>(step: (S, nat) -> Result<S, E>, start: S, n: nat): Result<S, E> {
    if n == 0 then Success(start)
    else match Fold(step, start, n - 1)
         case Failure(e) => Failure(e)
         case Success(s) => step(s, n - 1)
  }

  /** An invariant of the steps holds of every run that succeeds. */
  lemma {:induction false} FoldKeeps<S(!new), E>(
      step: (S, nat) -> Result<S, E>, start: S, n: nat, inv: (S, nat) -> bool)
    requires inv(start, 0)
    requires forall s, i: nat :: i < n && inv(s, i) && step(s, i).Success? ==> inv(step(s, i).value, i + 1)
    ensures Fold(step, start, n).Success? ==> inv(Fold(step, start, n).value, n)
  {
    if n > 0 {
      FoldKeeps(step, start, n - 1, inv);
    }
  }

  /** A run that fails at one step has failed, with the same error, at every later one. */
  lemma {:induction false} FoldFailure<S, E>(step: (S, nat) -> Result<S, E>, start: S, i: nat, n: nat, e: E)
    requires i < n
    requires Fold(step, start, i).Success? && step(Fold(step, start, i).value, i) == Failure(e)
    ensures Fold(step, start, n) == Failure(e)
  {
    if i < n - 1 {
      FoldFailure(step, start, i, n - 1, e);
    }
  }
}
