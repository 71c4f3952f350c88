/** The value that JavaScript code may find missing. */
module Options {
  datatype Option<+T> = None | Some(value: T)
}
