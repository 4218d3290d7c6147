/** Failure-compatible wrappers: `Option` stands for a Java reference that may be
    null, `Result` for a call that either returns a value or throws. */
module Wrappers {

  datatype Option<+T> = None | Some(value: T) {

    /** The value, or `default` when absent (Java's `x != null ? x : default`). */
    function GetOr(default: T): T {
      match this
      case Some(v) => v
      case None => default
    }
  }

  datatype Result<+R, +E> = Success(value: R) | Failure(error: E)
}
