/** The optional value used for regex matches that may fail and for reads that may fail. */
module Wrappers {
  datatype Option<+T> = None | Some(value: T)
}
