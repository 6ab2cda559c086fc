/** Option type shared by the modules of the blog model. */
module Wrappers {

  /** An optional value: a JSON field that may be absent, or a lookup that may find nothing. */
  datatype Option<+T> = None | Some(value: T) {

    /** The value, or `default` when absent (the `?? default` / `|| default` of the source). */
    function GetOr(default: T): T {
      match this
      case Some(v) => v
      case None => default
    }
  }
}
