/** Failure-compatible wrappers shared by the other modules. */
module Wrappers {

  /** An optional value: a pandas cell that may be null after a merge, a lookup that may miss. */
  datatype Option<+T> = None | Some(value: T)

  /** The outcome of an operation that raises an exception in the Python scripts. */
  datatype Result<+R, +E> = Success(value: R) | Failure(error: E) {
    predicate IsFailure() {
      Failure?
    }

    function PropagateFailure<U>(): Result<U, E>
      requires Failure?
    {
      Failure(error)
    }

    function Extract(): R
      requires Success?
    {
      value
    }
  }
}
