/** Failure-compatible wrappers shared by both action implementations. */
module Results {

  /** A value that may be absent: an unset environment variable, a failed parse. */
  datatype Option<+T> = None | Some(value: T)

  /** The outcome of a step that either yields a value or stops with an error. */
  datatype Result<+T, +E> = Success(value: T) | Failure(error: E)
}
