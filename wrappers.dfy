/** Option and Result values used for absent fields and for the outcomes of calls that can fail. */
module Wrappers {

  /** A value that may be absent (`undefined`/`null` in the source). */
  datatype Option<+T> = None | Some(value: T)

  /** The outcome of a call that either returns a value or throws an error carrying a message. */
  datatype Result<+T, +E> = Ok(value: T) | Err(error: E)
}
