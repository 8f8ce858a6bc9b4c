/** Option and Result: the absent value (`undefined`, `null`) and the early return of an error. */
module Wrappers {

  datatype Option<+T> = None | Some(value: T)

  datatype Result<+R, +E> = Ok(value: R) | Err(error: E)
}
