/** Failure-compatible wrappers shared by every actor: an optional value
    (the Rust `Option`), a result (the Rust `Result`) and the crate's error
    enum, of which the actors here only ever produce `NotSupported`. */
module Errors {

  datatype Option<+T> = None | Some(value: T)

  datatype Result<+R, +E> = Ok(value: R) | Err(error: E)

  /** `maelstrom::errors::Error`, restricted to the variant the actors return
      for a payload they have no handler for. */
  datatype Error = NotSupported
}
