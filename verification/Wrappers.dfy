/** The optional value used for nullable columns, failed lookups and aborted transactions. */
module Wrappers {
  datatype Option<+T> = None | Some(value: T)
}
