/** Options and results shared by the other modules. */
module Wrappers {

  datatype Option<+T> = None | Some(value: T)

  /** A computation that either returns or ends the process with a fatal error. */
  datatype Result<+T, +E> = Ok(value: T) | Err(error: E)
}
