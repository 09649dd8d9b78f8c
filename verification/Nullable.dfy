/** A Go pointer whose target is only ever read: nil, or the value it points to. */
module Nullable {
  datatype Option<+T> = None | Some(value: T) {
    function GetOr(default: T): T {
      match this
      case Some(v) => v
      case None => default
    }
  }
}
