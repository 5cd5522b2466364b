/// A value that may be missing: a `Map.get` miss, an absent tag, a `null` field.
module Wrappers {
  datatype Option<+T> = None | Some(value: T) {
    function GetOr(default: T): T {
      match this
      case Some(v) => v
      case None => default
    }
  }
}
