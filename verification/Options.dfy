/** An optional value, for nullable columns and for look-ups that may miss. */
module Options {
  datatype Option<+T> = None | Some(value: T)
}
