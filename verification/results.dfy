/** Small failure-carrying wrappers used across the model. */
module Results {

  /** A value that may be absent (a message that may not have been emitted). */
  datatype Option<+T> = None | Some(value: T)

  /** The outcome of an operation that can throw. */
  datatype Result<+T, +E> = Ok(value: T) | Err(error: E)
}
