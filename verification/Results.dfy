/** The two failure-carrying datatypes shared by every module. */
module Results {

  /** Python's `T | None`. */
  datatype Option<+T> = None | Some(value: T)

  /** A call that returns a value or raises an error. */
  datatype Result<+T, +E> = Success(value: T) | Failure(error: E)
}
