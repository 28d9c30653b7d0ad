/** The optional value used wherever Go returns a nil-able `error`. */
module Wrappers {
  datatype Option<+T> = None | Some(value: T)
}
