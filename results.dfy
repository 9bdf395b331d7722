/** Failure-carrying return shapes used for Go's `(value, error)` pairs. */
module Results {

  datatype Option<+T> = None | Some(value: T)

  /** Either a value or the error the Go code would have returned beside a nil value. */
  datatype Result<+T, +E> = Success(value: T) | Failure(error: E)
}
