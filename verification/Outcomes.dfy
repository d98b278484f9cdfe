/** The two result shapes the rest of the model uses for Go's nil-or-value and value-or-error. */
module Outcomes {
  datatype Option<+T> = None | Some(value: T)

  datatype Result<+T, +E> = Ok(value: T) | Err(error: E)

  /** The text of a Go error. The repository relies on such texts being non-empty. */
  type Message = s: string | s != "" witness "error"
}
