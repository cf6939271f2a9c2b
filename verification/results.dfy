/** Small failure-carrying datatypes shared by the other modules. */
module Results {

  /** A value that may be absent. */
  datatype Option<+T> = None | Some(value: T)

  /** The outcome of an operation that either produces a value or raises an error. */
  datatype Result<+T, +E> = Ok(value: T) | Err(error: E)
}
