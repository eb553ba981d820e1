/** The optional result of a lookup: the source's `(value, ok)` pair returns a nil value when
    the key is absent. */
module Wrappers {
  datatype Option<+T> = None | Some(value: T)
}
