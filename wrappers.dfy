/** Option and Result: the absent value (`undefined`, SQL NULL) and the error path. */
module Wrappers {

  datatype Option<+T> = None | Some(value: T)

  datatype Result<+T, +E> = Ok(value: T) | Err(error: E)
}
