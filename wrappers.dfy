/** Option and Result, the two failure-carrying shapes the services use. */
module Wrappers {

  /** A value that may be absent (Python's `None`). */
  datatype Option<+T> = None | Some(value: T)

  /** A value or the error a Python function would have raised. */
  datatype Result<+R, +E> = Success(value: R) | Failure(error: E)
}
