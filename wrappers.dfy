/** The optional value used wherever the server holds `null` or a payload field may be absent. */
module Wrappers {
  datatype Option<+T> = None | Some(value: T)
}
