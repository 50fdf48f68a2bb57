/** Failure-compatible wrappers used throughout the model.
    Every error of the modelled system is the unit value `()`, so `Err` carries nothing. */
module Wrappers {

  /** An optional value (Rust's `Option`). */
  datatype Option<+T> = None | Some(value: T) {

    /** The value, or `default` when there is none. */
    function GetOr(default: T): T {
      match this
      case Some(v) => v
      case None => default
    }
  }

  /** The outcome of a fallible operation (Rust's `Result<T, ()>`). */
  datatype Result<+T> = Ok(value: T) | Err {

    /** The value, or `default` when the operation failed (a result the caller ignores). */
    function GetOr(default: T): T {
      match this
      case Ok(v) => v
      case Err => default
    }
  }
}
