/** Value types shared by every module of the model. */
module Common {

  /** Python's `None` or a value. */
  datatype Option<+T> = None | Some(value: T)

  /** The result of an operation that may raise: the value, or the exception it raises. */
  datatype Result<+T, +E> = Success(value: T) | Failure(error: E)

  /** A statement that either completes or raises. */
  datatype Outcome<+E> = Pass | Fail(error: E)

  /** One byte of a file or of a cached image. */
  newtype byte = x: int | 0 <= x < 256

  type Bytes = seq<byte>
}
