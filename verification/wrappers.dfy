/**
  Failure-carrying datatypes shared by the models: `Option` stands for a value
  that JavaScript may leave `undefined`, `Result` for an operation that either
  returns a value or throws.
 */
module Wrappers {

  datatype Option<+T> = None | Some(value: T)

  datatype Result<+T, +E> = Ok(value: T) | Err(error: E)
}
