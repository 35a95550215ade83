/** The optional-value and outcome types used wherever the source has `None` or an exception path. */
module Wrappers {

  datatype Option<+T> = None | Some(value: T) {

    function GetOr(default: T): T {
      match this
      case Some(v) => v
      case None => default
    }
  }

  /** A value, or the error an exception would have carried. */
  datatype Result<+T, +E> = Success(value: T) | Failure(error: E)
}
