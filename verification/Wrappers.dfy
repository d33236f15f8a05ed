/** Failure and absence, in the shape the rest of the model uses them. */
module Wrappers {

  datatype Option<+T> = None | Some(value: T)

  /** The source's `anyhow::Result`: an error is reported, never inspected. */
  datatype Result<+T> = Ok(value: T) | Err
}
