/** Failure-compatible wrappers used throughout the model: `Option` stands for a
    Python value that may be `None`, `Result` for a call that may raise. */
module Wrappers {

  datatype Option<+T> = None | Some(value: T) {

    /** Returns the wrapped value, or `default` when there is none. */
    function GetOr(default: T): (r: T) {
      match this
      case Some(v) => v
      case None => default
    }
  }

  /** Either a value or the error (exception) that replaced it. */
  datatype Result<+T, +E> = Ok(value: T) | Err(error: E)
}
