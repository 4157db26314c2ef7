/** Optional values: `None` stands for JavaScript's `undefined` (a missing
    argument, a missing field) or for a call that threw. */
module Wrappers {

  datatype Option<+T> = None | Some(value: T) {

    /** The value, or `default` when there is none (a JavaScript default
        parameter, which applies only to `undefined`). */
    function GetOr(default: T): T {
      match this
      case Some(v) => v
      case None => default
    }
  }
}
