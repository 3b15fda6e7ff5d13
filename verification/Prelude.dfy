/** Small shared vocabulary: optional values and command outcomes. */
module Prelude {
  datatype Option<+T> = None | Some(value: T)

  /** The outcome of a command: its value, or the error it raised. */
  datatype Outcome<+T, +E> = Ok(value: T) | Failed(error: E)
}
