/** Optional values and results with an error message, standing in for Python's
    "key may be absent" and "call may raise". */
module Wrappers {

  datatype Option<+T> = None | Some(value: T)

  datatype Result<+R, +E> = Success(value: R) | Failure(error: E)
}
