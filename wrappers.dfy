/** Small result types used in place of the source's sentinel values and exceptions. */
module Wrappers {

  /** A value that may be absent: `None` stands for the "not found" sentinel. */
  datatype Option<+T> = None | Some(value: T) {

    /** The wrapped value, or `default` when there is none. */
    function GetOr(default: T): T {
      match this
      case Some(v) => v
      case None => default
    }
  }

  /** Either a value or the error that the source raises instead of returning. */
  datatype Result<+R, +E> = Success(value: R) | Failure(error: E)
}
