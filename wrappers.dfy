/** Wrappers: a value that may be missing, and an operation that may fail. */
module Wrappers {

  /** A cell, label or parse result that may be absent (pandas NaN/None). */
  datatype Option<+T> = None | Some(value: T) {
    function GetOr(default: T): T {
      match this
      case Some(v) => v
      case None => default
    }
  }

  /** The value of an operation, or the exception it raises. */
  datatype Result<+R, +E> = Success(value: R) | Failure(error: E)
}
