/** The two sum types the Rust code leans on everywhere: `Option` for a value
    that may be absent and `Result` for an operation that may fail. */
module Wrappers {

  datatype Option<+T> = None | Some(value: T)

  datatype Result<+T, +E> = Ok(value: T) | Err(error: E)
}
