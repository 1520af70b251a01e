/** Optional values and results with an error, shared by the other modules. */
module Wrappers {

  /** A value that may be absent; `None` stands for Java's null. */
  datatype Option<+T> = None | Some(value: T)

  /** The outcome of an operation that can fail with an error instead of a value. */
  datatype Result<+T, +E> = Success(value: T) | Failure(error: E)
}
