/** Option and Result values used across the model in place of Python's None and exceptions. */
module Wrappers {

  datatype Option<+T> = None | Some(value: T) {
    /** The wrapped value, or `default` when absent (Python's `d.get(key, default)`). */
    function GetOr(default: T): T {
      match this
      case Some(v) => v
      case None => default
    }
  }

  /** The outcome of a call that either returns a value or raises an exception with a message. */
  datatype Result<+R> = Success(value: R) | Failure(error: string)
}
