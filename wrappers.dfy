/** The optional value used wherever the source has `undefined`. */
module Wrappers {
  datatype Option<+T> = None | Some(value: T)
}
