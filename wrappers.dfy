/** Optional values and results with an error, shared by every module of the model. */
module Wrappers {

  /** A value that may be missing: JavaScript's `null`/`undefined` or an absent storage key. */
  datatype Option<+T> = None | Some(value: T) {
    function GetOr(default: T): T {
      match this
      case Some(v) => v
      case None => default
    }
  }

  /** The outcome of an operation that either produces a value or stops with an error. */
  datatype Result<+R, +E> = Ok(value: R) | Err(error: E)
}
