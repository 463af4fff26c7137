/** Optional values and results with an error side, shared by the other modules. */
module Wrappers {

  /** A value that may be missing; None stands for pandas' NaN. */
  datatype Option<+T> = None | Some(value: T)

  /** The outcome of an operation that can raise. */
  datatype Result<+R, +E> = Success(value: R) | Failure(error: E)
}
