/** Optional values and results with an error, standing in for JavaScript's
    `null` and for an exception thrown by an operation. */
module Wrappers {

  datatype Option<+T> = None | Some(value: T)

  datatype Result<+T, +E> = Ok(value: T) | Err(error: E)
}
