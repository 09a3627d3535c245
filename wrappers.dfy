/** Option and Result, the failure-carrying values the rest of the model
    uses in place of Python's `None` defaults and raised exceptions. */
module Wrappers {

  datatype Option<+T> = None | Some(value: T) {
    /** The value, or `default` when absent (Python's `dict.get(key, default)`). */
    function GetOr(default: T): T {
      match this
      case Some(v) => v
      case None => default
    }
  }

  /** A computation that either returns a value or raises an exception
      whose message is `error`. */
  datatype Result<+T> = Ok(value: T) | Err(error: string)
}
