/** An optional value, for the fields that may be unset. */
module Options {
  datatype Option<+T> = None | Some(value: T)
}
