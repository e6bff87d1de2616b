/** Python's `None` as a value: an optional payload. */
module Wrappers {

  datatype Option<+T> = None | Some(value: T)
}
