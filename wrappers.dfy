/** Failure-compatible wrappers shared by every module of the model. */
module Wrappers {

  datatype Option<+T> = None | Some(value: T)

  /** `Fatal` stands for a `log_error`, a failed `log_assert` or a thrown exception: the whole run is aborted. */
  datatype Result<+T> = Ok(value: T) | Fatal(message: string)
}
