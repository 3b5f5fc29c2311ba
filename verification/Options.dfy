/** A value that may be missing: the second result of a lookup, or a value next to an error. */
module Options {
  datatype Option<+T> = None | Some(value: T)
}
