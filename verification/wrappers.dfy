/** Option and Result, the failure-carrying values used across the model. */
module Wrappers {

  /** A value that may be missing (a null buffer or image in the texture code). */
  datatype Option<+T> = None | Some(value: T)

  /** The outcome of an operation that can fail with an error of type E. */
  datatype Result<+R, +E> = Success(value: R) | Failure(error: E)
}
