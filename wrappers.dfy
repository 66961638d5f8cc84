/** Failure-compatible wrappers used throughout the model: Option stands for a
    nullable reference, Result for a call that returns a value or raises,
    Outcome for a call that returns nothing or raises. */
module Wrappers {

  datatype Option<+T> = None | Some(value: T) {
    function GetOr(default: T): T {
      match this
      case Some(v) => v
      case None => default
    }
  }

  datatype Result<+T, +E> = Ok(value: T) | Err(error: E)

  datatype Outcome<+E> = Pass | Fail(error: E)
}
