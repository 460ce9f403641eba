/** Optional values, results and pass/fail outcomes used throughout the model. */
module Wrappers {

  /** `None` stands for JavaScript's `undefined`. */
  datatype Option<+T> = None | Some(value: T)

  datatype Result<+T, +E> = Ok(value: T) | Err(error: E)

  /** What a call that either completes or throws reports to its caller. */
  datatype Outcome<+E> = Pass | Fail(error: E)
}
