/** A value that may be absent: a JavaScript `null`/`undefined` (or missing field). */
module Wrappers {
  datatype Option<+T> = None | Some(value: T) {
    /** `x || d` for a value whose only falsy form is absence. */
    function GetOr(default: T): T {
      match this
      case Some(v) => v
      case None => default
    }
  }
}
