/** Option and Result datatypes used across the model. */
module Wrappers {

  /** A value that may be absent (Python's `None`). */
  datatype Option<+T> = None | Some(value: T)

  /** Either a value or the error that stopped the computation (a Python exception). */
  datatype Result<+T, +E> = Success(value: T) | Failure(error: E)
}
