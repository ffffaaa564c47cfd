/** A value that may be absent: JavaScript's `undefined` result of a lookup or a `find`. */
module Wrappers {
  datatype Option<+T> = None | Some(value: T)
}
