/** Option, Result and Outcome datatypes shared by the whole model. */
module Wrappers {

  /** An optional value: the model's counterpart of JavaScript's `undefined`/`null`. */
  datatype Option<+T> = None | Some(value: T)

  /** A value or an error code. */
  datatype Result<+R, +E> = Success(value: R) | Failure(error: E)

  /** Success without a value, or an error code. */
  datatype Outcome<+E> = Pass | Fail(error: E)
}
