/** The optional value used wherever the adapter returns a value and a boolean. */
module Options {
  datatype Option<+T> = None | Some(value: T)
}
