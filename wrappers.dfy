/** Optional values and results with an error, as used throughout the model. */
module Wrappers {

  /** A value that may be absent (a JSON field that is missing, null or undefined). */
  datatype Option<+T> = None | Some(value: T) {

    /** The wrapped value, or `default` when absent. */
    function GetOr(default: T): T
    {
      match this
      case Some(v) => v
      case None => default
    }
  }

  /** The outcome of an operation that can throw in the source. */
  datatype Result<+T, +E> = Ok(value: T) | Err(error: E)
}
