/** A value that may be missing, and a computation that may raise. */
module Results {
  datatype Option<+T> = None | Some(value: T)

  /** Success with a value, or an exception raised. */
  datatype Result<+T> = Ok(value: T) | Err
}
