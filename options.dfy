/** An optional value, used where the script reads a DOM attribute that may be null. */
module Options {
  datatype Option<+T> = None | Some(value: T)
}
