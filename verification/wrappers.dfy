/** Optional values, used for the script's `None`-defaulted arguments and for
    operations that can fail. */
module Wrappers {

  /** `None` stands for Python's `None`; `Some(v)` for any other value. */
  datatype Option<+T> = None | Some(value: T) {

    /** The encapsulated value, or `default` when there is none. */
    function GetOr(default: T): T
    {
      match this
      case Some(v) => v
      case None => default
    }
  }
}
