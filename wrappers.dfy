/** A value that may be missing: pandas' NaN/NaT marker for a cell. */
module Wrappers {
  datatype Option<+T> = None | Some(value: T)
}
