/** The optional values and results shared by the other modules. */
module Wrappers {

  /** An optional value. */
  datatype Option<+T> = None | Some(value: T)

  /** Either a value or an error: the model of Go's `(value, error)` returns. */
  datatype Result<+R, +E> = Success(value: R) | Failure(error: E)
}
