/** The optional value used wherever PHP yields `null` for "nothing there". */
module Wrappers {
  datatype Option<+T> = None | Some(value: T)
}
