/**
 * Option and Result values shared by every module of the model.
 * `Outcome` stands for a Rust `Result<()>` whose error is an
 * `eyre::Report` displayed as a message.
 */
module Wrappers {

  datatype Option<T> = None | Some(value: T)

  datatype Result<T> = Ok(value: T) | Err(error: string)

  datatype Outcome = Pass | Fail(error: string)
}
