/** Failure-compatible wrappers used across the model. */
module Wrappers {

  /** A value that may be missing; `None` stands for a bin whose estimate is NaN. */
  datatype Option<+T> = None | Some(value: T)

  /** The outcome of an operation that can raise an error. */
  datatype Result<+R, +E> = Success(value: R) | Failure(error: E)
}
