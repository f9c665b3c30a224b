/** Optional values and results shared by the modules of the model. */
module Wrappers {

  /** A value that may be absent (Python's `None`). */
  datatype Option<+T> = None | Some(value: T)

  /** The value of an operation that either returns or raises an error. */
  datatype Result<+T, +E> = Ok(value: T) | Err(error: E)
}
