/** A value that may be absent: the source's null pointers and error returns. */
module Options {
  datatype Option<+T> = None | Some(value: T)
}
