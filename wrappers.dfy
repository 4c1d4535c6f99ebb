/** Failure-carrying wrappers used throughout the model. */
module Wrappers {

  /** A value that may be missing (a pandas NaN cell, an operation that raises on empty input). */
  datatype Option<+T> = None | Some(value: T)

  /** The outcome of an operation that can fail with an error of type E. */
  datatype Result<+R, +E> = Success(value: R) | Failure(error: E)
}
