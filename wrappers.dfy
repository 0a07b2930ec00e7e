/** Option and Result, used for JavaScript's `undefined`/`null` and for refused operations. */
module Wrappers {

  datatype Option<+T> = None | Some(value: T)

  datatype Result<+T, +E> = Ok(value: T) | Err(error: E)
}
