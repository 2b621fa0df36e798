/** Option and Result, used for Python's `None` and for exceptions that escape a call. */
module Wrappers {

  datatype Option<+T> = None | Some(value: T)

  datatype Result<+T, +E> = Success(value: T) | Failure(error: E)
}
