module Options {
  /** A value that may be absent: JavaScript's null or undefined. */
  datatype Option<+T> = None | Some(value: T)
}
