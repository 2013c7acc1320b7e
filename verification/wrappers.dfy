/** Optional values: the model's stand-in for JavaScript's `undefined`/`null`
    and for Python's exceptions on a single value. */
module Wrappers {

  datatype Option<+T> = None | Some(value: T) {

    /** The wrapped value, or `default` when there is none. */
    function GetOr(default: T): T {
      match this
      case Some(v) => v
      case None => default
    }
  }
}
