/** Option and Result, used throughout the model. */
module Wrappers {

  /** An optional value. `None` stands for JavaScript's `null` and
      `undefined` alike, since the source compares them with loose `==`. */
  datatype Option<+T> = None | Some(value: T) {

    /** The wrapped value, or `default` when there is none. */
    function GetOr(default: T): T {
      match this
      case Some(v) => v
      case None => default
    }
  }

  /** The outcome of an operation that may throw. */
  datatype Result<+R, +E> = Ok(value: R) | Err(error: E)
}
