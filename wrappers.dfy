/** Optional values and the outcome of a computation that may throw. */
module Wrappers {

  /** A value that may be absent (JavaScript's `undefined` or `null`). */
  datatype Option<+T> = None | Some(value: T) {

    /** The value, or `default` when absent. */
    function GetOr(default: T): T {
      match this
      case Some(v) => v
      case None => default
    }
  }

  /** The outcome of an operation that either returns a value or throws
      (a fulfilled or a rejected promise). The error's text is not kept. */
  datatype Result<+T> = Ok(value: T) | Err
}
