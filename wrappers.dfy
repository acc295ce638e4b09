/** Option, the wrapper the model uses for a value that may be absent. */
module Wrappers {

  /** A value that may be absent (Python's `Optional`, or a swallowed failure). */
  datatype Option<+T> = None | Some(value: T) {

    /** The wrapped value, or `default` when there is none (Python's `d.get(k, default)`). */
    function GetOr(default: T): T {
      match this
      case Some(v) => v
      case None => default
    }
  }
}
