/** The optional value used wherever the source returns null, and the outcome of a call that may throw. */
module Wrappers {
  datatype Option<+T> = None | Some(value: T)

  /** A value, or the exception a library call raised (its type never matters to the caller here). */
  datatype Result<+T> = Ok(value: T) | Thrown
}
