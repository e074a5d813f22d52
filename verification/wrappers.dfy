/** Optional values and success/failure results, used wherever the source
    returns `null`/`undefined` or throws an error object. */
module Wrappers {

  datatype Option<+T> = None | Some(value: T)

  datatype Result<+R, +E> = Success(value: R) | Failure(error: E)
}
