/** Option and Result, used for nullable strings and for the error paths of the source. */
module Wrappers {

  /** `None` stands for a C# `null`. */
  datatype Option<+T> = None | Some(value: T)

  datatype Result<+T, +E> = Ok(value: T) | Err(error: E)

  /** The outcome of a directory call that either returns a value or throws. */
  datatype Attempt<+T> = Done(value: T) | Threw
}
