/** Failure-compatible results shared by the models. */
module Outcomes {

  datatype Option<+T> = None | Some(value: T)

  /** `Err` stands for a Python exception that leaves the modelled routine. */
  datatype Result<+T> = Ok(value: T) | Err(message: string)
}
