/** Option and Result: the values a JavaScript `undefined`/`null` and a thrown
    `Error` become in this model. */
module Wrappers {

  datatype Option<+T> = None | Some(value: T)

  /** The outcome of a step of the demo that either yields a value or throws. */
  datatype Result<+T, +E> = Ok(value: T) | Err(error: E)
}
