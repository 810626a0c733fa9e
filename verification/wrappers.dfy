/** Nullable values and outcomes that may be an exception. */
module Wrappers {

  /** A Java reference that may be null, or a JavaScript value that may be undefined. */
  datatype Option<+T> = None | Some(value: T) {
    function GetOr(default: T): T {
      match this
      case Some(v) => v
      case None => default
    }
  }

  /** The outcome of a call that either returns a value or throws. */
  datatype Result<+R, +E> = Success(value: R) | Failure(error: E)
}
