/** Optional values: the model's stand-in for TypeScript's `undefined` and `null`. */
module Wrappers {

  /** `None` is an absent (undefined or null) value, `Some` a present one. */
  datatype Option<+T> = None | Some(value: T) {

    /** The value, or `default` when absent: the `??` operator and default parameters. */
    function GetOr(default: T): T {
      match this
      case Some(v) => v
      case None => default
    }
  }
}
