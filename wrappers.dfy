/** Optional values and results with an error, used for Python's `None`
    returns and for the exceptions the builder lets escape. */
module Wrappers {

  datatype Option<+T> = None | Some(value: T)

  datatype Result<+T, +E> = Success(value: T) | Failure(error: E)
}
