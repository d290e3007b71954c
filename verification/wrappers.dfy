/** Failure-compatible wrappers shared by the rest of the model. */
module Wrappers {

  /** A value that may be absent: Python's `None` or a SQL NULL. */
  datatype Option<+T> = None | Some(value: T)

  /** The outcome of a step that can raise: `Failure` carries the exception's name. */
  datatype Result<+T> = Success(value: T) | Failure(error: string)
}
