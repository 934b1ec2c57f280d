/** Shared vocabulary of the map strategy: bytes and the failure-carrying wrappers. */
module Base {

  /** One byte of a key, a value or an encoded payload. */
  type byte = x: int | 0 <= x < 256

  datatype Option<+T> = None | Some(value: T)

  /** A result or the error that aborted the computation (Go's `(T, error)` pair). */
  datatype Result<+T, +E> = Success(value: T) | Failure(error: E)
}
