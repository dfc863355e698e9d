/** Datatypes shared by every module. */
module Prelude {

  datatype Option<+T> = None | Some(value: T)

  datatype Result<+T, +E> = Ok(value: T) | Err(error: E)

  /** What becomes of one command sent to Redis or PostgreSQL. The caller sees an
      error for `Down` (the command had no effect) and for `Lost` (the command took
      effect, but its reply never arrived). */
  datatype Fault = Fine | Down | Lost
}
