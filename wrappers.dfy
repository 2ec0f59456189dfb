/** Python's `None`-or-value, as used for the optional paths and dictionary lookups. */
module Wrappers {

  datatype Option<+T> = None | Some(value: T)
}
