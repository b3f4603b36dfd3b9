/** Failure-carrying shapes used across the model: `Option` for JavaScript's
    null/undefined and `Result` for an operation that can throw. */
module Wrappers {

  /** A value that may be absent (`null` or `undefined` in the source). */
  datatype Option<+T> = None | Some(value: T) {

    /** The wrapped value, or `default` when absent (JavaScript's `x || default`). */
    function GetOr(default: T): (v: T)
    {
      match this
      case Some(v) => v
      case None => default
    }
  }

  /** The outcome of an operation that either returns a value or throws an error. */
  datatype Result<+R, +E> = Success(value: R) | Failure(error: E)
}
