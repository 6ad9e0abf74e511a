/** Option and Result, shared by the whole model. */
module Wrappers {

  /** An optional value: Go's nil-able results and Python's "maybe". */
  datatype Option<+T> = None | Some(value: T)

  /** A value or the error that prevented it: Go's `(T, error)` pairs. */
  datatype Result<+R, +E> = Success(value: R) | Failure(error: E)
}
