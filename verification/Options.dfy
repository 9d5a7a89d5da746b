/** A value that may be absent, or an operation that may have failed. */
module Options {
  datatype Option<+T> = None | Some(value: T)
}
