/** Failure-compatible wrappers: a value that may be absent, and a value or an error. */
module Wrappers {

  /** A value that may be absent: Python's `None`, or a dictionary key that is not there. */
  datatype Option<+T> = None | Some(value: T) {

    /** The value, or `default` when there is none (Python's `dict.get(key, default)`). */
    function GetOr(default: T): T {
      match this
      case Some(v) => v
      case None => default
    }
  }

  /** The outcome of a call that may raise: a returned value or the exception raised. */
  datatype Result<+T, +E> = Ok(value: T) | Err(error: E)
}
