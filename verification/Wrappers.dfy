/** Optional results, results with an error, and the maximum of two numbers. */
module Wrappers {
  datatype Option<+T> = None | Some(value: T)

  datatype Result<+T, +E> = Success(value: T) | Failure(error: E)

  /** max(a, b) */
  function Max(a: real, b: real): real {
    if a < b then b else a
  }
}
