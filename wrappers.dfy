/** Option and Result, the failure-carrying values used throughout the model. */
module Wrappers {

  datatype Option<+T> = None | Some(value: T)

  /** A Ruby method that either returns a value or raises `error`. */
  datatype Result<+T, +E> = Success(value: T) | Failure(error: E)
}
