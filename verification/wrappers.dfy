/** Failure-carrying datatypes used to model Python exceptions as values. */
module Wrappers {

  /** A value that may be absent (Python's `None`). */
  datatype Option<+T> = None | Some(value: T)

  /** The outcome of an operation that either returns a value or raises an error. */
  datatype Result<+R, +E> = Success(value: R) | Failure(error: E) {

    predicate IsFailure() {
      Failure?
    }

    function PropagateFailure<U>(): Result<U, E>
      requires Failure?
    {
      Failure(error)
    }

    function Extract(): R
      requires Success?
    {
      value
    }
  }
}
