/** The null / undefined of the TypeScript source, as a value. */
module Wrappers {

  /** `None` stands for an absent, null or undefined value. */
  datatype Option<+T> = None | Some(value: T) {

    /** The value, or `default` when absent (the `??` operator). */
    function GetOr(default: T): T {
      match this
      case Some(v) => v
      case None => default
    }
  }
}
