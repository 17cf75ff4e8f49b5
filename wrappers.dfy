/** Python's `None` next to a value, as the reconciler uses it for "no account" and "not fetched". */
module Wrappers {
  datatype Option<+T> = None | Some(value: T)
}
