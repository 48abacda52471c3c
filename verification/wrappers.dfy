/** Option and Result, the two failure-carrying values the model uses. */
module Wrappers {

  /** A value that may be absent: `None` stands for JavaScript's `null` or `NaN`. */
  datatype Option<+T> = None | Some(value: T)

  /** The outcome of a validation that may reject its input. */
  datatype Result<+R, +E> = Success(value: R) | Failure(error: E)
}
