/**
 Failure-compatible wrappers shared by every module: an optional value and a
 value-or-error result, used wherever the original code returns a flag, a
 null, or throws.
 */
module Wrappers {

  /** A value that may be absent (a null reference, an empty optional). */
  datatype Option<+T> = None | Some(value: T)

  /** A value or the error that stopped its computation (an exception, a
      `false` return with an error string). */
  datatype Result<+T, +E> = Ok(value: T) | Err(error: E)
}
