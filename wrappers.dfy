/** Option, Result and Outcome: the Rust `Option<T>`, `Result<T, E>` and
    `Result<(), E>` shapes used throughout the model. */
module Wrappers {

  datatype Option<+T> = None | Some(value: T)

  datatype Result<+R, +E> = Success(value: R) | Failure(error: E)

  /** `Result<(), E>`: a step that either passes or fails with an error. */
  datatype Outcome<+E> = Pass | Fail(error: E)
}
