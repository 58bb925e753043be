/** Failure-compatible wrappers used in place of the exceptions and `null`
    results of the services. */
module Wrappers {

  /** A value that may be missing (`null` in the services). */
  datatype Option<+T> = None | Some(value: T)

  /** The result of an operation that either succeeds with a value or fails
      with an error (an exception in the services). */
  datatype Result<+T, +E> = Success(value: T) | Failure(error: E) {
    predicate IsFailure() {
      Failure?
    }

    function PropagateFailure<U>(): Result<U, E>
      requires Failure?
    {
      Failure(error)
    }

    function Extract(): T
      requires Success?
    {
      value
    }
  }

  /** The outcome of a validation that returns nothing when it passes. */
  datatype Outcome<+E> = Pass | Fail(error: E)
}
