/** Failure-compatible helper datatypes shared by the other modules. */
module Wrappers {

  /** Swift's `Optional`: `None` stands for `nil`. */
  datatype Option<+T> = None | Some(value: T) {
    function GetOr(default: T): T {
      match this
      case Some(v) => v
      case None => default
    }
  }

  /** The result of a check that either passes or fails with an error. */
  datatype Outcome<+E> = Pass | Fail(error: E)

  /** The result of an operation that either produces a value or an error. */
  datatype Result<+R, +E> = Ok(value: R) | Err(error: E)
}
