/** A value that may be absent: a null pointer or a failed call of the source. */
module Options {
  datatype Option<+T> = None | Some(value: T)
}
