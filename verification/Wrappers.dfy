/** Optional values and results with an error, used for Java's null and for thrown exceptions. */
module Wrappers {

  /** A value that may be absent: Java's nullable reference. */
  datatype Option<+T> = None | Some(value: T)

  /** The outcome of an operation that may throw: a value or the error it raises. */
  datatype Result<+R, +E> = Success(value: R) | Failure(error: E)
}
