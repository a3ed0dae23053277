/** Option and Result values used for Go's `(value, error)` returns. */
module Wrappers {

  datatype Option<+T> = None | Some(value: T) {
    function GetOr(default: T): T {
      match this
      case Some(v) => v
      case None => default
    }
  }

  /** `Ok(v)` is a nil error with value `v`; `Err(e)` a non-nil error. */
  datatype Result<+T, +E> = Ok(value: T) | Err(error: E)

  /** A Go call that returns a value with a nil error, returns a non-nil
      error, or panics (a failed type assertion, an out-of-range slice). */
  datatype Outcome<+T> = Returned(value: T) | Failed(error: string) | Panicked
}
