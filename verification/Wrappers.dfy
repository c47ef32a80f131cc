/** Failure-compatible results shared by the other modules. */
module Wrappers {

  datatype Option<+T> = None | Some(value: T) {
    function GetOr(default: T): T {
      match this
      case Some(v) => v
      case None => default
    }
  }

  datatype Result<+T, +E> = Success(value: T) | Failure(error: E)

  /** Go's `orDefault`: a string, or a fallback when it is empty. */
  function OrDefault(v: string, fallback: string): string {
    if v == "" then fallback else v
  }
}
