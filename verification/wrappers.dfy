/** Absent-or-present values: the model of a lookup that may come back empty
    (`{}` from the in-memory store, `nil` from the SQLite store, `undefined`
    for an option the caller left out). */
module Wrappers {

  datatype Option<+T> = None | Some(value: T) {

    /** The value, or `default` when absent: JavaScript's destructuring default. */
    function GetOr(default: T): T {
      match this
      case Some(v) => v
      case None => default
    }
  }
}
