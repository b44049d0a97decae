/** A Java reference that may be null, as a value. */
module Wrappers {

  /** `None` stands for `null`, `Some(v)` for a reference to `v`. */
  datatype Option<+T> = None | Some(value: T) {

    /** The referenced value, or `default` when null: a null-guarded read. */
    function GetOr(default: T): T {
      match this
      case Some(v) => v
      case None => default
    }
  }
}
