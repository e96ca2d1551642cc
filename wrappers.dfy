/** Option and Result values used across the model. */
module Wrappers {

  /** A value that may be absent (Python's `None`). */
  datatype Option<+T> = None | Some(value: T)

  /** Either a value or the reason the operation stopped. */
  datatype Result<+R, +E> = Success(value: R) | Failure(error: E)
}
