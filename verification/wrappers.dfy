/** Failure-compatible result types shared by the graph store and the solver. */
module Wrappers {

  /** An optional value: `None` is the solver's "unreachable" answer. */
  datatype Option<+T> = None | Some(value: T)

  /** Either a value or the error that the source would have raised instead. */
  datatype Result<+R, +E> = Success(value: R) | Failure(error: E)
  {
    predicate IsFailure() {
      Failure?
    }

    function PropagateFailure<U>(): Result<U, E>
      requires Failure?
    {
      Failure(error)
    }

    function Extract(): R
      requires Success?
    {
      value
    }
  }
}
