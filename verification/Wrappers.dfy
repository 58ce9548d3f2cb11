/** Result and option types shared by the model. */
module Wrappers {

  datatype Option<+T> = None | Some(value: T)

  /** A Rust `Result`: the error value is kept, because callers branch on it. */
  datatype Result<+T, +E> = Ok(value: T) | Err(error: E)
}
