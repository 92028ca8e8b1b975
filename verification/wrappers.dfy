/** Optional values and results that carry a thrown exception. */
module Wrappers {

  datatype Option<+T> = None | Some(value: T)

  /** The outcome of a JavaScript call: a value, or the exception it throws. */
  datatype Result<+T, +E> = Ok(value: T) | Fail(error: E)
}
