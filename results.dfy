/** Optional values and error returns used across the model. */
module Results {
  /** A value that may be absent, like a Python argument that may be None. */
  datatype Option<+T> = None | Some(value: T)

  /** Either a value or the error that stopped the computation. */
  datatype Result<+T, +E> = Ok(value: T) | Err(error: E)
}
