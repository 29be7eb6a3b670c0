/** Outcome datatypes shared by the model. */
module Wrappers {

  /** An optional value. */
  datatype Option<+T> = None | Some(value: T)

  /** The outcome of a call that can fail. The error itself is only ever
      logged by the watcher, so it carries no payload here. */
  datatype Result<+T> = Ok(value: T) | Err
}
