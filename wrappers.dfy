/** The optional value returned by the "search for a pattern" helpers. */
module Wrappers {
  datatype Option<+T> = None | Some(value: T)
}
