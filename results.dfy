/** Failure-carrying values used across the model, and the byte type shared by the
    two text codecs. */
module Results {

  datatype Option<+T> = None | Some(value: T)

  /** A computation that produced a value or raised an error. */
  datatype Result<+R, +E> = Success(value: R) | Failure(error: E)

  /** A computation with no value that completed or raised an error. */
  datatype Outcome<+E> = Pass | Fail(error: E)

  /** One octet, as Python's `bytes` holds them. */
  type Byte = x: int | 0 <= x < 256
}
