/** Failure-carrying wrappers shared by every module of the model. */
module Common {

  /** A value that may be absent: Python's None, C's NULL, a missing dictionary key. */
  datatype Option<+T> = None | Some(value: T)

  /** The outcome of an operation that can raise: the value, or the error that ends the caller. */
  datatype Result<+T, +E> = Ok(value: T) | Err(error: E)
}
