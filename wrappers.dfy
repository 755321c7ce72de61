/** Option and Result: how the scripts' `None` returns and raised exceptions are represented. */
module Wrappers {

  /** A value that may be absent, as Python's `X | None`. */
  datatype Option<+T> = None | Some(value: T) {
    function GetOr(default: T): T {
      match this
      case Some(v) => v
      case None => default
    }
  }

  /** A computation that either returns a value or raises. */
  datatype Result<+R, +E> = Success(value: R) | Failure(error: E)
}
