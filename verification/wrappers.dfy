/** Failure-carrying datatypes shared by every module of the model. */
module Wrappers {

  /** A value that may be absent (`undefined`/`null` in the source). */
  datatype Option<+T> = None | Some(value: T)

  /** The outcome of an operation that either succeeds or throws a described error. */
  datatype Result<+T, +E> = Ok(value: T) | Err(error: E)
}
