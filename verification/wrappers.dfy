/** Option and Result, the two failure-compatible wrappers the model uses for
    JavaScript's `undefined`, Python's `None`, NaN and raised exceptions. */
module Wrappers {

  datatype Option<+T> = None | Some(value: T) {
    /** JavaScript's `x || d` and Python's `x or d` when only absence is falsy. */
    function GetOr(default: T): T {
      match this
      case Some(v) => v
      case None => default
    }
  }

  datatype Result<+R, +E> = Success(value: R) | Failure(error: E)
}
