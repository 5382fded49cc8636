/** Outcome types: a value that may be absent, and a value or an error the source throws or returns. */
module Results {
  datatype Option<+T> = None | Some(value: T)

  datatype Result<+T, +E> = Ok(value: T) | Err(error: E)
}
