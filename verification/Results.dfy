/** Values that may be missing, and computations that may raise. */
module Results {
  datatype Option<+T> = None | Some(value: T)

  datatype Result<+T> = Ok(value: T) | Err(error: string)
}
