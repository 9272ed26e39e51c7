/** Failure-carrying values that replace Python's exceptions and process exits. */
module Results {

  /** A value that may be absent. */
  datatype Option<+T> = None | Some(value: T)

  /** Either a value or the reason there is none. */
  datatype Result<+T, +E> = Success(value: T) | Failure(error: E)
}
