/** Optional values: the answer of a register read when the modelled device has one. */
module Wrappers {

  datatype Option<+T> = None | Some(value: T)
}
