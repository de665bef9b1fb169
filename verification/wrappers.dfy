/** Optional values and success/failure results, standing in for Python's `None`
    and for the exceptions the scripts let escape. */
module Wrappers {

  datatype Option<+T> = None | Some(value: T) {

    /** The wrapped value, or `default` when there is none (Python's `x or default`
        only when `x` is None). */
    function GetOr(default: T): T {
      match this
      case Some(v) => v
      case None => default
    }
  }

  /** The outcome of a step that may raise: either its value or the error it raises. */
  datatype Result<+R, +E> = Success(value: R) | Failure(error: E)
}
