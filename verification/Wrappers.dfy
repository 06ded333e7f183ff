/** The two failure-style results shared by the other modules. */
module Wrappers {

  datatype Option<+T> = None | Some(value: T)

  /** A value, or the exception the original raises instead. */
  datatype Result<+T, +E> = Ok(value: T) | Err(error: E)
}
