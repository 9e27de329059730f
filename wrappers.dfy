/** Failure-carrying results used across the model. */
module Wrappers {

  /** A value that may be missing: Python's `None` on the error paths of the source. */
  datatype Option<+T> = None | Some(value: T)

  /** A value or the exception that the source would raise instead of returning it. */
  datatype Result<+T, +E> = Ok(value: T) | Err(error: E)
}
