/** Optional values and error-carrying results shared by the other modules. */
module Wrappers {

  /** A value that may be absent: Python's None, SQL's NULL, a missing form field. */
  datatype Option<+T> = None | Some(value: T) {
    function GetOr(default: T): T {
      match this
      case Some(v) => v
      case None => default
    }
  }

  /** The outcome of an operation that either yields a value or reports an error. */
  datatype Result<+R, +E> = Success(value: R) | Failure(error: E)
}
