/** Optional values, standing in for Kotlin's nullable types (`T?`) and the elvis operator `?:`. */
module Wrappers {

  datatype Option<+T> = None | Some(value: T) {

    /** `x ?: default` */
    function GetOr(default: T): T {
      match this
      case Some(v) => v
      case None => default
    }
  }
}
