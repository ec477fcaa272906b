/** Optional values, results and pass/fail outcomes: the model's stand-ins for
    `null`, for methods that either return a value or throw, and for `void`
    methods that may throw. */
module Wrappers {

  datatype Option<+T> = None | Some(value: T)

  datatype Result<+T, +E> = Success(value: T) | Failure(error: E)

  /** The result of a `void` operation: it completed, or it threw `error`. */
  datatype Outcome<+E> = Pass | Fail(error: E)
}
