/** The presence or absence of a value. */
module Options {
  datatype Option<+T> = None | Some(value: T)
}
