/** The optional value used for results that the source signals by raising. */
module Wrappers {
  datatype Option<+T> = None | Some(value: T)
}
