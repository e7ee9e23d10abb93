/** Optional values, and results of operations that can fail. */
module Wrappers {
  datatype Option<T> = None | Some(value: T)

  datatype Result<T> = Ok(value: T) | Err(error: string)

  /** A stage of a query: done, stopped with an error message for the user, or stopped by a failed assertion. */
  datatype Outcome<T> = Done(value: T) | Failed | Trapped
}
