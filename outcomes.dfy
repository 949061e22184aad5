/** Option and Result, used for JavaScript's `undefined` and for the errors
    a service throws. */
module Outcomes {

  datatype Option<+T> = None | Some(value: T)

  datatype Result<+T, +E> = Ok(value: T) | Err(error: E)
}
