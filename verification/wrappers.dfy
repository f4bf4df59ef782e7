/** Failure-compatible wrapper used wherever the source has a value that may be
    missing (`undefined`, `null`, or a rejected promise whose error is swallowed). */
module Wrappers {

  datatype Option<+T> = None | Some(value: T) {

    /** The wrapped value, or `default` when there is none (JavaScript's `x ?? d`). */
    function GetOr(default: T): T {
      match this
      case Some(v) => v
      case None => default
    }
  }
}
