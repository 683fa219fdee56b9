/** Optional values: `null`/`undefined` in the modelled TypeScript become `None`. */
module Wrappers {

  datatype Option<+T> = None | Some(value: T) {

    /** The JavaScript `x ?? d` / `x || d` default for a missing value. */
    function GetOr(default: T): T {
      match this
      case Some(v) => v
      case None => default
    }
  }
}
