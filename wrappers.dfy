/** Go's `(value, error)` and `(value, ok)` return conventions. */
module Wrappers {
  import opened Bytes

  datatype Option<+T> = None | Some(value: T)

  /** A Go result: a value, or an error whose `Error()` text is `error`. */
  datatype Result<+T> = Ok(value: T) | Err(error: seq<byte>)
}
