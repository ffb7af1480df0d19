/** Failure-compatible Option and Result datatypes used for the Go error returns. */
module Wrappers {

  datatype Option<+T> = None | Some(value: T)

  /** Either a value or the error the Go code would have returned. */
  datatype Result<+R, +E> = Success(value: R) | Failure(error: E) {

    predicate IsFailure() {
      Failure?
    }

    function PropagateFailure<U>(): Result<U, E>
      requires Failure?
    {
      Failure(error)
    }

    function Extract(): R
      requires Success?
    {
      value
    }
  }
}
