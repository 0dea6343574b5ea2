/** Failure-compatible wrappers shared by the other modules. */
module Wrappers {

  /** `None` stands for the absence of a value; in `JsNumber` and `Amount` it is JavaScript's NaN. */
  datatype Option<+T> = None | Some(value: T)

  /** The result of an operation that can fail with an error of type `E`. */
  datatype Result<+R, +E> = Success(value: R) | Failure(error: E)
}
