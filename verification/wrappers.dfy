/** Option and Result, the two failure-carrying shapes the rest of the model uses
    for JavaScript's `null` and for thrown errors. */
module Wrappers {

  /** A value that may be JavaScript `null` (or an absent field). */
  datatype Option<+T> = None | Some(value: T) {

    /** The value, or `default` when absent: JavaScript's `x ?? default`. */
    function GetOr(default: T): T {
      match this
      case Some(v) => v
      case None => default
    }
  }

  /** The outcome of an operation that either returns a value or throws. */
  datatype Result<+R, +E> = Success(value: R) | Failure(error: E)
}
