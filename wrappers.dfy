/** Optional values and results with an error case, shared by every module of the model. */
module Wrappers {

  /** Kotlin's nullable `T?`, Python's `None`, JavaScript's `undefined`. */
  datatype Option<+T> = None | Some(value: T) {
    /** Kotlin's elvis operator `x ?: default`. */
    function GetOr(default: T): T {
      match this
      case Some(v) => v
      case None => default
    }
  }

  /** A value or the error that the source raises or returns instead. */
  datatype Result<+R, +E> = Ok(value: R) | Err(error: E)
}
