/** Optional values and success/failure results used throughout the model. */
module Results {

  /** A value that may be absent; stands for Python's `None`-or-value. */
  datatype Option<+T> = None | Some(value: T)

  /** The outcome of an operation that can fail with an error of type `E`. */
  datatype Result<+T, +E> = Success(value: T) | Failure(error: E)
}
