/** Option and Result, the two shapes in which the Go code returns "a value or nothing" and "a value or an error". */
module Wrappers {

  datatype Option<+T> = None | Some(value: T)

  datatype Result<+T, +E> = Success(value: T) | Failure(error: E)
}
