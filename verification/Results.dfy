/** Outcomes of operations that the TypeScript sources express with null and with exceptions. */
module Results {
  datatype Option<+T> = None | Some(value: T)

  datatype Result<+T, +E> = Ok(value: T) | Err(error: E)
}
