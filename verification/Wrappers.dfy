/** Values that may be absent: nullable columns and `None` returns. */
module Wrappers {
  datatype Option<+T> = None | Some(value: T)
}
