/** The optional value the scripts return as a value or Python's None. */
module Wrappers {
  datatype Option<+T> = None | Some(value: T)
}
