/** Optional values and success/failure results, used for Python's `None` returns
    and for exceptions raised while one work item is processed. */
module Wrappers {

  datatype Option<+T> = None | Some(value: T)

  datatype Result<+R, +E> = Success(value: R) | Failure(error: E)
}
