/** Option and Result values used in place of JavaScript's null/undefined and thrown errors. */
module Wrappers {

  datatype Option<+T> = None | Some(value: T)

  /** A computation that either produced a value or failed with an error message
      (the `message` of the JavaScript `Error` it would have thrown). */
  datatype Result<+T> = Ok(value: T) | Err(error: string)
}
