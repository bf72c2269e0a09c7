/** The Some/None datatype used for values that may be missing. */
module Options {
  datatype Option<+T> = None | Some(value: T)
}
