/** The outcome of an operation that may fail, and a value that may be absent. */
module Wrappers {
  datatype Result<+V, +E> = Ok(value: V) | Err(error: E)
  datatype Option<+T> = None | Some(value: T)
}
