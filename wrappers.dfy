/** The optional value used for `number | null` fields and for parse results. */
module Wrappers {
  datatype Option<+T> = None | Some(value: T)
}
