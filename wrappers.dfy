/** An optional value and a success-or-failure outcome, shared by the modules of the model. */
module Wrappers {

  datatype Option<+T> = None | Some(value: T)

  /** The outcome of an operation whose Python counterpart may raise. */
  datatype Result<+R, +E> = Success(value: R) | Failure(error: E)
}
