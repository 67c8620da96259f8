/** Failure-carrying values used for the Go functions' `(value, error)` returns. */
module Wrappers {

  datatype Option<+T> = None | Some(value: T) {
    function GetOr(default: T): T {
      match this
      case Some(v) => v
      case None => default
    }
  }

  /** A value or the error that replaced it. */
  datatype Result<+T, +E> = Ok(value: T) | Err(error: E)

  /** The bare `error` return of a Go function: nil (`Pass`) or an error. */
  datatype Outcome<+E> = Pass | Fail(error: E)
}
