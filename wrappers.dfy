/** Option and Result values used across the model: a Java `null` becomes `None`, a thrown exception `Failure`. */
module Wrappers {

  datatype Option<+T> = None | Some(value: T) {
    function GetOr(default: T): T {
      match this
      case Some(v) => v
      case None => default
    }
  }

  /** Outcome of an operation that may throw: the source wraps every exception into one runtime failure. */
  datatype Result<+T> = Ok(value: T) | Failure {
    predicate IsFailure() {
      Failure?
    }

    function PropagateFailure<U>(): Result<U>
      requires Failure?
    {
      Failure
    }

    function Extract(): T
      requires Ok?
    {
      value
    }
  }
}
