/** Rust's `Option` and the fatal error paths (`panic!`, `unwrap` on a missing
    value) of the modelled code, as values. */
module Wrappers {

  datatype Option<+T> = None | Some(value: T)

  datatype Result<+T, +E> = Ok(value: T) | Err(error: E)
}
