/** Optional values and the outcome of calls that may fail. */
module Wrappers {

  datatype Option<+T> = None | Some(value: T)

  /** A call that returns a value or throws; `:-` propagates the exception. */
  datatype Result<+T> = Success(value: T) | Failure {
    predicate IsFailure() {
      Failure?
    }

    function PropagateFailure<U>(): Result<U>
      requires Failure?
    {
      Failure
    }

    function Extract(): T
      requires Success?
    {
      value
    }
  }
}
