/**
 Failure-compatible wrappers shared by the model: `Option` stands for a
 JavaScript value that may be `undefined`, `Result` for an action that either
 produces a value or stops early with an error.
 */
module Wrappers {

  datatype Option<+T> = None | Some(value: T)

  datatype Result<+R, +E> = Success(value: R) | Failure(error: E)
}
