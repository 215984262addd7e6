/** Failure-carrying wrappers shared by every module of the model. */
module Results {

  /** An optional value: `None` stands for the C++ null pointer or Python `None`. */
  datatype Option<+T> = None | Some(value: T)

  /** The outcome of an operation that either yields a value or raises an error. */
  datatype Result<+T, +E> = Ok(value: T) | Err(error: E)
}
