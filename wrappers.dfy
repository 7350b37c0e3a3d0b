/** The Option and Result datatypes shared by the modules of this model. */
module Wrappers {

  /** A value that may be absent (a dictionary entry that is not there). */
  datatype Option<+T> = None | Some(value: T)

  /** The outcome of an expression that may raise: its value, or the exception raised. */
  datatype Result<+T, +E> = Success(value: T) | Failure(error: E)
}
