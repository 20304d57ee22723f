/** Optional values, standing for Python's `None` and `dict.get` results, and the outcome of a call that may raise. */
module Wrappers {

  datatype Option<+T> = None | Some(value: T) {

    /** `x or default` for an optional value: the value when present. */
    function GetOr(default: T): T {
      match this
      case Some(v) => v
      case None => default
    }
  }

  /** How a Python call ends: with a value, or with an uncaught exception. */
  datatype Completion<T> = Returned(value: T) | Raises(error: string)
}
