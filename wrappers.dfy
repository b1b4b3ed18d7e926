/** Optional values and results with an error, for the nullable values and exceptions of the editor. */
module Wrappers {

  datatype Option<+T> = None | Some(value: T)

  datatype Result<+T, +E> = Ok(value: T) | Err(error: E)
}
