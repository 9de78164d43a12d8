/** Failure-compatible wrappers shared by every module: a nullable value and an exception-or-value outcome. */
module Wrappers {

  /** A column or argument that may be null (Python `None`). */
  datatype Option<+T> = None | Some(value: T)

  /** The outcome of a call that either returns a value or raises. */
  datatype Result<+R, +E> = Ok(value: R) | Err(error: E)
}
