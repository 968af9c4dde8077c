/** An optional value, for lookups and reads that may yield nothing. */
module Options {
  datatype Option<+T> = None | Some(value: T)
}
