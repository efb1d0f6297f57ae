/** A value that may be missing. */
module Wrappers {

  datatype Option<+T> = None | Some(value: T) {
    function Or(fallback: T): T {
      if Some? then value else fallback
    }
  }
}
