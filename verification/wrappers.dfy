/** Failure-carrying results shared by the whole model. */
module Wrappers {

  /** A value that may be absent: a JavaScript `NaN` from a failed parse,
      a column the header does not name, a record that does not decode. */
  datatype Option<+T> = None | Some(value: T)

  /** The outcome of an operation that can fail with a user-visible message. */
  datatype Result<+T> = Ok(value: T) | Err(message: string)
}
