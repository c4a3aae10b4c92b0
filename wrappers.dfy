/** Option and Result values for lookups that may fail and operations that may raise. */
module Wrappers {

  datatype Option<+T> = None | Some(value: T)

  /** A Success carries the value an operation built; a Failure the error it raised. */
  datatype Result<+R, +E> = Success(value: R) | Failure(error: E)
}
