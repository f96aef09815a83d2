/** Option and Result, the failure-carrying values used across the model. */
module Wrappers {

  /** A value that may be absent: Go's `(T, error)` pair when the error is not inspected. */
  datatype Option<+T> = None | Some(value: T)

  /** A value or an error, as returned by Go functions of shape `(T, error)`. */
  datatype Result<+T, +E> = Success(value: T) | Failure(error: E)
}
