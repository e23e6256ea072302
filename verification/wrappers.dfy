/** Optional values and success/failure results, used for JavaScript's
    `null`/`undefined` and for guards that either admit a request or answer it. */
module Wrappers {

  /** `None` stands for JavaScript `null` or `undefined`. */
  datatype Option<+T> = None | Some(value: T) {

    /** The wrapped value, or `default` when there is none. */
    function GetOr(default: T): T {
      match this
      case Some(v) => v
      case None => default
    }
  }

  datatype Result<+R, +E> = Success(value: R) | Failure(error: E)
}
