/** Option and Result values used in place of Python's None and exceptions. */
module Wrappers {

  /** A value or Python's None. */
  datatype Option<+T> = None | Some(value: T) {

    /** The value, or `default` when there is none. */
    function GetOr(default: T): T {
      match this
      case Some(v) => v
      case None => default
    }
  }

  /** A value, or the error an operation raises instead of returning. */
  datatype Result<+T, +E> = Success(value: T) | Failure(error: E)
}
