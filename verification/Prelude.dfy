/** Types shared by every module. */
module Prelude {

  /** A value that may be missing: Go's nil pointer, an absent map key, an empty cursor. */
  datatype Option<+T> = None | Some(value: T) {
    function GetOr(default: T): T {
      if Some? then value else default
    }
  }

  /** A Go `(value, error)` pair, with the error reduced to its kind. */
  datatype Result<+T, +E> = Ok(value: T) | Err(error: E)
}
