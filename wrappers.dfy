/** Option and Result, as used across the feature-engineering model. */
module Wrappers {

  /** A possibly absent value; `None` is what pandas shows as NaN. */
  datatype Option<+T> = None | Some(value: T)

  /** The outcome of a step that can raise. */
  datatype Result<+T, +E> = Success(value: T) | Failure(error: E)
}
