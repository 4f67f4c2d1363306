/** Option and Result, used for the JavaScript values that may be missing
    (`undefined`/`null`) and for operations that may throw. */
module Wrappers {

  datatype Option<+T> = None | Some(value: T)

  datatype Result<+R, +E> = Success(value: R) | Failure(error: E)
}
