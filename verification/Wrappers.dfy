/** A value that may be absent: the source's `None`, a null, or a missing key. */
module Wrappers {
  datatype Option<+T> = None | Some(value: T)
}
