/** Option and Result, the failure-carrying values the model returns where the source
    returns None or raises. */
module Wrappers {

  datatype Option<+T> = None | Some(value: T)

  datatype Result<+R, +E> = Success(value: R) | Failure(error: E)

  /** A check that passes or fails with an error and carries no value. */
  datatype Outcome<+E> = Pass | Fail(error: E)
}
