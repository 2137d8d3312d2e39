/** Failure-carrying values shared by the rest of the model. */
module Wrappers {

  /** A value that may be absent (Python's `Optional`, or a raised error that the caller collapses). */
  datatype Option<+T> = None | Some(value: T) {

    /** The carried value, or `default` when absent. */
    function GetOr(default: T): T {
      match this
      case Some(v) => v
      case None => default
    }
  }

  /** A computation that either produced a value or raised (Python exceptions that escape). */
  datatype Result<+T> = Ok(value: T) | Raised(reason: string)
}
