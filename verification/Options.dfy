/** A value that may be absent: a nil pointer, a missing entry or a failed call. */
module Options {
  datatype Option<+T> = None | Some(value: T)
}
