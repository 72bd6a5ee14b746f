/** A value that may be absent: a NULL pointer, a missing result. */
module Options {
  datatype Option<+T> = None | Some(value: T)
}
