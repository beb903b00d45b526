/** The optional value used wherever the source has `null`/`undefined` or a result that may be missing. */
module Wrappers {
  datatype Option<+T> = None | Some(value: T)
}
