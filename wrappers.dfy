/** Failure-compatible result types used for the engine's exceptions. */
module Wrappers {

  datatype Option<+T> = None | Some(value: T)

  /** An operation that either produces a value or fails with an error. */
  datatype Result<+R, +E> = Ok(value: R) | Err(error: E)

  /** An operation that produces no value and either passes or fails. */
  datatype Outcome<+E> = Pass | Fail(error: E)
}
