/** The Option datatype: JavaScript's `undefined` (None) or a defined value. */
module Wrappers {
  datatype Option<+T> = None | Some(value: T)
}
