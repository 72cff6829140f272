/** The optional value and the outcome-or-error types used across the model. */
module Wrappers {

  datatype Option<T> = None | Some(value: T)
  {
    predicate IsSome() {
      this.Some?
    }

    function GetOr(default: T): T {
      match this
      case None => default
      case Some(v) => v
    }
  }

  /** A computation that either yields a value or fails with an error (a raised exception). */
  datatype Result<T, E> = Success(value: T) | Failure(error: E)
  {
    predicate IsFailure() {
      this.Failure?
    }
  }
}
