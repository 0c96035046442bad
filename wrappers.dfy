/** Optional values: the model's reading of JavaScript's `undefined`. */
module Wrappers {

  /** `None` is an absent value (`undefined`, or a deleted property); `Some(v)` a present one. */
  datatype Option<+T> = None | Some(value: T) {

    /** The value, or `default` when absent: JavaScript's `x || default` for values that are always truthy. */
    function GetOr(default: T): T
    {
      match this
      case Some(v) => v
      case None => default
    }
  }
}
