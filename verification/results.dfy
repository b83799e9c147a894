/** Failure-carrying values used where the modelled code raises an exception. */
module Results {

  /** Either the value the code returns, or the error it raises. */
  datatype Result<+T, +E> = Ok(value: T) | Err(error: E)

  /** A value that may be absent. */
  datatype Option<+T> = None | Some(value: T)
}
