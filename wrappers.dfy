/** Optional values (JavaScript's `undefined`/`null`) and outcomes that may be a thrown error. */
module Wrappers {

  /** A value that may be absent. */
  datatype Option<+T> = None | Some(value: T) {

    /** The wrapped value, or `default` when absent. */
    function GetOr(default: T): T {
      match this
      case Some(v) => v
      case None => default
    }
  }

  /** Either a value, or the error a call would have thrown. */
  datatype Result<+R, +E> = Success(value: R) | Failure(error: E)
}
