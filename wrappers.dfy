// An optional value, for Python's `None` and for `dict.get` with a default.

module Wrappers {

  datatype Option<+T> = None | Some(value: T) {

    function GetOr(default: T): T
    {
      match this
      case Some(v) => v
      case None => default
    }
  }
}
