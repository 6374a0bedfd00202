/** Optional values and error returns, standing in for Go's nil pointers
    and `error` results. */
module Wrappers {
  datatype Option<+T> = None | Some(value: T) {
    function GetOr(default: T): T {
      match this
      case Some(v) => v
      case None => default
    }
  }

  /** A value or an error, for Go's `(T, error)` pairs. */
  datatype Result<+T, +E> = Ok(value: T) | Err(error: E)

  /** Only an error, for Go functions that return a bare `error`. */
  datatype Outcome<+E> = Pass | Fail(error: E)
}
