/** Optional values, standing for Python's `None`-or-value fields. */
module Wrappers {

  datatype Option<+T> = None | Some(value: T) {

    /** Returns the value inside `Some`, or `default` for `None`. */
    function GetOr(default: T): T {
      match this
      case Some(v) => v
      case None => default
    }
  }
}
