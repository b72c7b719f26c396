/** Option, Result and Outcome: the model's stand-ins for Rust's Option,
    anyhow::Result<T> and anyhow::Result<()>. */
module Wrappers {

  datatype Option<+T> = None | Some(value: T)

  datatype Result<+T, +E> = Success(value: T) | Failure(error: E)

  /** A result that carries no value on success (`anyhow::Result<()>`). */
  datatype Outcome<+E> = Pass | Fail(error: E)
}
