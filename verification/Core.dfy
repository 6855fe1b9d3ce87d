/** Option and Result, used where the Go code returns nil or an error. */
module Core {
  datatype Option<+T> = None | Some(value: T)

  datatype Result<+T, +E> = Success(value: T) | Failure(error: E)
}
