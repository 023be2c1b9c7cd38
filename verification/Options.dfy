/** An optional value, for what JavaScript says with undefined or null. */
module Options {
  datatype Option<+T> = None | Some(value: T)
}
