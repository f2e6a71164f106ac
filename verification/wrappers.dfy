/** Option and Result types used where the source has a missing value (a
    pandas NaN) or an aborted import. */
module Wrappers {

  datatype Option<+T> = None | Some(value: T) {

    /** The value, or `default` when it is missing (pandas `fillna`). */
    function GetOr(default: T): T {
      match this
      case Some(v) => v
      case None => default
    }
  }

  datatype Result<+R, +E> = Success(value: R) | Failure(error: E)
}
