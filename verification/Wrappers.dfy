/** The outcome types shared by every component. */
module Wrappers {
  datatype Option<+T> = None | Some(value: T)

  datatype Result<+T, +E> = Ok(value: T) | Err(error: E)

  /** An error and the line of the file it is reported for; 0 when it names no line. */
  datatype At<+E> = At(line: nat, error: E)
}
