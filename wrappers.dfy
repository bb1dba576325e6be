/** Failure-carrying results, standing for Go's `(value, error)` return pairs. */
module Wrappers {

  /** A Go `error`, modelled by its message. */
  type Error = string

  datatype Option<T> = None | Some(value: T)

  /** Either a value or the error that took its place. */
  datatype Result<T> = Ok(value: T) | Err(error: Error)
}
