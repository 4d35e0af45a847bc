/** Failure-carrying values shared by every module of the task list model. */
module Optional {

  /** A value that may be missing. */
  datatype Option<+T> = None | Some(value: T)

  /** The outcome of an operation that can end in an exception. */
  datatype Result<+T, +E> = Ok(value: T) | Err(error: E)
}
