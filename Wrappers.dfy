/** Option, Result and Outcome: how the model writes C# nulls and thrown exceptions. */
module Wrappers {

  /** `None` stands for a C# `null` reference. */
  datatype Option<+T> = None | Some(value: T) {
    function GetOr(default: T): T {
      match this
      case Some(v) => v
      case None => default
    }
  }

  /** The value of an operation that either returns normally or throws. */
  datatype Result<+R, +E> = Ok(value: R) | Err(error: E)

  /** The value of a `void` operation that either returns normally or throws. */
  datatype Outcome<+E> = Pass | Fail(error: E)
}
