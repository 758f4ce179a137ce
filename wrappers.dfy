/** Option and Result values standing in for JavaScript's null/undefined and thrown errors. */
module Wrappers {

  /** A value that may be missing: `None` stands for JavaScript's `null` or `undefined`. */
  datatype Option<+T> = None | Some(value: T)

  /** The outcome of an operation that may throw: `Failure` carries the error message. */
  datatype Result<+R, +E> = Success(value: R) | Failure(error: E)
}
