/** Optional values and results with an error, used throughout the model. */
module Wrappers {

  /** `None` stands for JavaScript's `undefined`/`null`, or for `NaN` where a number is expected. */
  datatype Option<+T> = None | Some(value: T)

  datatype Result<+T, +E> = Ok(value: T) | Err(error: E)
}
