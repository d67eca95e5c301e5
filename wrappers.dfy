/** The optional-value datatype used for Python values that may be absent (`None`, a missing
    dictionary field) and for operations that raise on bad input. */
module Wrappers {

  datatype Option<+T> = None | Some(value: T) {

    /** The value, or `default` when there is none: Python's `d.get(field, default)`. */
    function GetOr(default: T): T {
      match this
      case Some(v) => v
      case None => default
    }
  }
}
