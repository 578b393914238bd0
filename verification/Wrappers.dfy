/** The two wrapper types shared by the models: a value that may be missing, and
    a value that may be replaced by an error. */
module Wrappers {

  datatype Option<+T> = None | Some(value: T)

  datatype Result<+T, +E> = Ok(value: T) | Err(error: E)
}
