/** The optional value used where the source has `null`/`undefined` or an absent header. */
module Wrappers {
  datatype Option<+T> = None | Some(value: T)
}
