/** Optional values and the results of provider calls. */
module Wrappers {

  /** A value that may be absent: Go's `nil` error is `None`. */
  datatype Option<+T> = None | Some(value: T)

  /** The outcome of a call into the stats provider that may return an error. */
  datatype Result<+T> = Ok(value: T) | Err(message: string)
}
