/** Option and Result, the shapes used for Go's nil pointers and (value, error) pairs. */
module Wrappers {

  datatype Option<+T> = None | Some(value: T)

  /** A Go call that returns a value or a non-nil error (its message). */
  datatype Result<+T> = Success(value: T) | Failure(error: string)
}
