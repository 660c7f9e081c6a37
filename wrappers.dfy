/** Optional values (TypeScript's `T | undefined`) and success-or-error results
    (a Python function that returns or raises). */
module Wrappers {
  datatype Option<+T> = None | Some(value: T)

  datatype Result<+R, +E> = Success(value: R) | Failure(error: E)
}
