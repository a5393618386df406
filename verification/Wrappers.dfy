/** A value that may be absent: a NULL pointer, an empty table slot, an unmapped page. */
module Wrappers {

  datatype Option<+T> = None | Some(value: T)
}
