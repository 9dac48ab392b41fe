/** Option and Result, the two failure-aware wrappers the model uses. */
module Wrappers {

  datatype Option<+T> = None | Some(value: T)

  /** The outcome of an operation that the bot's Python code lets raise an exception. */
  datatype Result<+T, +E> = Ok(value: T) | Err(error: E)
}
