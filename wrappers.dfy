/** Optional values and outcomes of requests that may fail. */
module Wrappers {
  /** JavaScript's `undefined`/`null` next to a present value. */
  datatype Option<+T> = None | Some(value: T) {
    /** The value, or `default` when absent (JavaScript's `x || default` for a defined x). */
    function GetOr(default: T): T
    {
      match this
      case Some(v) => v
      case None => default
    }
  }

  /** A promise that resolved with a value or was rejected. */
  datatype Result<+T> = Ok(value: T) | Err
}
