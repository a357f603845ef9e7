/** Failure-carrying values used in place of the exceptions the services raise. */
module Wrappers {

  datatype Option<+T> = None | Some(value: T)

  /** `Ok` is a normal return; `Err` stands for a raised validation error. */
  datatype Result<+T, +E> = Ok(value: T) | Err(error: E)
}
