/** Absent values and error returns: the model's stand-ins for Java's `null` and exceptions. */
module Optional {

  /** A value that may be missing (a nullable reference in the source). */
  datatype Option<+T> = None | Some(value: T)

  /** Either a value or the error the source would have thrown. */
  datatype Result<+T, +E> = Ok(value: T) | Err(error: E)
}
