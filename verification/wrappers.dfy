/** Option and Result: a null cell, and an operation that can fail. */
module Wrappers {

  /** A cell that may be null (pandas NaN / NaT). */
  datatype Option<+T> = None | Some(value: T) {

    /** The value, or `default` when the cell is null. */
    function GetOr(default: T): T {
      match this
      case Some(v) => v
      case None => default
    }
  }

  /** The outcome of a step that can raise. */
  datatype Result<+R, +E> = Success(value: R) | Failure(error: E)
}
