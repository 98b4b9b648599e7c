/** Failure-carrying wrappers shared by every module of the model. */
module Outcomes {

  /** A value that may be absent (Python's `None`, a missing key, a failed parse). */
  datatype Option<+T> = None | Some(value: T)

  /** Either a computed value or the error that ended the computation. */
  datatype Result<+T, +E> = Ok(value: T) | Err(error: E)
}
