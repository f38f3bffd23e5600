/** Option and Result values shared by the account modules. */
module Wrappers {

  /** A value that may be absent; the model's counterpart of `T | null`. */
  datatype Option<+T> = None | Some(value: T)

  /** The outcome of an operation that either returns a value or throws an
      `Error` carrying a message. */
  datatype Result<+T> = Ok(value: T) | Err(message: string)
}
