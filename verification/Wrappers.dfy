/** Values that may be missing, and outcomes that may be errors. */
module Wrappers {

  datatype Option<+T> = None | Some(value: T)

  datatype Result<+T, +E> = Ok(value: T) | Err(error: E) {
    predicate IsFailure() {
      Err?
    }

    function PropagateFailure<U>(): Result<U, E>
      requires Err?
    {
      Err(error)
    }

    function Extract(): T
      requires Ok?
    {
      value
    }
  }

  /** What no step changes is the same at the end. */
  lemma {:induction false} Constant<T>(xs: seq<T>, k: nat, m: nat)
    requires k <= m < |xs| && forall n | k <= n < m :: xs[n + 1] == xs[n]
    ensures xs[m] == xs[k]
  {
    if k < m {
      Constant(xs, k, m - 1);
      assert xs[m - 1 + 1] == xs[m - 1];
    }
  }
}
