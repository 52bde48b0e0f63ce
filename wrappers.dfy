/** Small failure-compatible wrappers shared by the modules of this model. */
module Wrappers {

  /** A value that may be absent (a null pointer, an empty std::optional). */
  datatype Option<+T> = None | Some(value: T)

  /** The outcome of an operation that may be refused. */
  datatype Result<+T, +E> = Ok(value: T) | Err(error: E)
}
