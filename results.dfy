/** Go's `(value, error)` pairs and nil-able values. */
module Results {

  datatype Option<+T> = None | Some(value: T)

  /** A Go result pair: either a value with a nil error, or an error. */
  datatype Result<+T, +E> = Ok(value: T) | Err(error: E)
}
