/** An optional value, where the source has None. */
module Options {
  datatype Option<+T> = None | Some(value: T)
}
