/** Value wrappers shared by the model: an optional value (Python's `None`
    or a value) and the outcome of a call that may raise. */
module Wrappers {

  /** A Python value that may be `None`. */
  datatype Option<+T> = None | Some(value: T) {

    /** `d.get(key, default)`: the value when present, the default otherwise. */
    function GetOr(default: T): T {
      match this
      case Some(v) => v
      case None => default
    }
  }

  /** How a Python call ends: it returns a value, or an exception propagates
      out of it (network errors, retries exhausted). */
  datatype Outcome<+T> = Returned(value: T) | Raised
}
