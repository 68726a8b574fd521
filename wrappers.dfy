/** Failure-carrying values shared by the model: an optional value, and the
    outcome of an operation that either succeeds with a value or fails with
    the message the panel would show. */
module Wrappers {

  datatype Option<+T> = None | Some(value: T)

  /** A network response or a thrown JavaScript error, reduced to its message. */
  datatype Result<+T> = Ok(value: T) | Err(message: string)
}
