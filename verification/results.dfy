/** Tagged results used in place of the host's exceptions. */
module Results {

  /** Some value, or nothing. */
  datatype Option<+T> = None | Some(value: T)

  /** A value, or the text of the error that was raised instead (Python's `str(e)`). */
  datatype Result<+T> = Ok(value: T) | Err(error: string)
}
