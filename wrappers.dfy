/** Optional values, results and outcomes used throughout the model. */
module Wrappers {

  /** An optional value, used for absent child and parent links. */
  datatype Option<+T> = None | Some(value: T)

  /** A value or the error that prevented computing it. */
  datatype Result<+R, +E> = Success(value: R) | Failure(error: E)

  /** Success without a value, or the error raised. */
  datatype Outcome<+E> = Pass | Fail(error: E)
}
