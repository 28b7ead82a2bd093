/** An optional value: what a lookup, a decoder or a fallible encoder returns. */
module Wrappers {
  datatype Option<+T> = None | Some(value: T)
}
