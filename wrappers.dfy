/** Option and Result values standing in for Python's `None` and raised exceptions. */
module Wrappers {

  datatype Option<+T> = None | Some(value: T)

  /** A computation that either produced a value or raised an exception `error`. */
  datatype Result<+R, +E> = Success(value: R) | Failure(error: E)
}
