/** Optional values and error-carrying results shared by the whole model. */
module Wrappers {

  /** A value that may be absent: the model's stand-in for a Java `null` or an empty `Optional`. */
  datatype Option<+T> = None | Some(value: T)

  /** The outcome of an operation that the application lets fail with an exception. */
  datatype Result<+T, +E> = Success(value: T) | Failure(error: E)
}
