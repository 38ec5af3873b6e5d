/** Option and Result, shared by the whole model. */
module Wrappers {

  /** A value that may be missing: an absent session, an unparseable number. */
  datatype Option<+T> = None | Some(value: T)

  /** The outcome of a server action: a value, or the error it reports. */
  datatype Result<+T, +E> = Ok(value: T) | Err(error: E)
}
