/** Optional values and results with an error message, shared by every module. */
module Wrappers {

  /** A value that may be absent (`null` / `undefined` in the plugin). */
  datatype Option<+T> = None | Some(value: T)

  /** The outcome of an operation that may throw: its value, or the message of the error it raised. */
  datatype Result<+T> = Success(value: T) | Failure(error: string)
}
