/** Optional values (Python's `None` next to a present value) and results that may be an error. */
module Wrappers {

  datatype Option<+T> = None | Some(value: T)

  /** A value, or the exception raised instead. */
  datatype Result<+T, +E> = Ok(value: T) | Err(error: E)
}
