/** The conventional optional value, used for nullable columns and for lookups that may miss. */
module Options {
  datatype Option<+T> = None | Some(value: T)
}
