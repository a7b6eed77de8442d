/** Failure-carrying results shared by the dump tooling model. */
module Wrappers {

  /** Go's `nil`-or-value: a slice that may be nil, a lookup that may miss. */
  datatype Option<+T> = None | Some(value: T)

  /** A Go `(value, error)` pair: either a value or the error's message. */
  datatype Result<+T> = Ok(value: T) | Err(msg: string)
}
