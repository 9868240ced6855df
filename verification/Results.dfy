/** Error returns: the source's `(value, error)` pairs. */
module Results {
  datatype Result<+T> = Ok(value: T) | Err(error: string)
}
