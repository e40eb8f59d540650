/** Option and Result: the model's stand-ins for JavaScript's `undefined` and for a thrown exception. */
module Wrappers {

  /** `None` is a property that is absent (reads as `undefined`). */
  datatype Option<+T> = None | Some(value: T)

  /** `Err(message)` is a computation that threw an error whose `message` is given. */
  datatype Result<+T, +E> = Ok(value: T) | Err(error: E)
}
