/**
  Failure-compatible wrappers shared by the whole model.

  A promise of the client library is modelled once it has settled: a
  fulfilled promise is `Success(value)` and a rejected one is
  `Failure(error)`. `Deferred<T>` names that reading of `Result<T>`.
 */
module Wrappers {

  datatype Option<+T> = None | Some(value: T) {

    /** The value, or `default` when absent (PHP's `$x ?? default`). */
    function GetOr(default: T): T {
      match this
      case Some(v) => v
      case None => default
    }
  }

  /** The ways a fetch or a decode can fail. */
  datatype Error =
    | MissingKey(key: string)       // a required key is absent or null
    | WrongType(key: string)        // a key holds a value of the wrong JSON type
    | NoMatchingVariant             // no normalizer claims the value or the payload
    | DivisionByZero                // `slice` called with a zero page size
    | Transport(reason: string)     // failure reported by the HTTP collaborator

  datatype Result<+T> = Success(value: T) | Failure(error: Error) {

    predicate IsFailure() {
      Failure?
    }

    function PropagateFailure<U>(): Result<U>
      requires Failure?
    {
      Failure(error)
    }

    function Extract(): T
      requires Success?
    {
      value
    }
  }

  /** A settled promise: fulfilled with a value or rejected with an error. */
  type Deferred<+T> = Result<T>
}
