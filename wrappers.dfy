/** Option and Result values for the absent and failing cases of the upload service. */
module Wrappers {

  /** A value that may be absent: a missing object property, a failed parse, no match. */
  datatype Option<+T> = None | Some(value: T)

  /** The outcome of a step that may throw: `Err` carries the error's message. */
  datatype Result<+T, +E> = Ok(value: T) | Err(error: E)
}
