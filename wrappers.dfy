/** Optional values and success/error results shared by the other modules. */
module Wrappers {

  /** A value that may be absent: a nullable column, a query parameter not sent. */
  datatype Option<+T> = None | Some(value: T)

  /** The outcome of a step that can fail with an error of type E. */
  datatype Result<+T, +E> = Ok(value: T) | Err(error: E)
}
