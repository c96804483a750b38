/** Failure-compatible wrappers used across the model. */
module Wrappers {

  /** An optional value: what a parser returns when it may reject its input. */
  datatype Option<+T> = None | Some(value: T)

  /** A value or an error, for the operations that return `(value, error)` pairs. */
  datatype Result<+R, +E> = Success(value: R) | Failure(error: E)
}
