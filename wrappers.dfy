/** Optional values and results with an error, standing for Java's null and thrown exceptions. */
module Wrappers {

  /** A value that may be absent (a Java reference that may be null). */
  datatype Option<+T> = None | Some(value: T)

  /** A successful value or the error that would have been thrown. */
  datatype Result<+T, +E> = Ok(value: T) | Err(error: E)
}
