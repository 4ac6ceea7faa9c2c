/** The optional value used where the source returns a value together with an `ok` flag. */
module Options {
  datatype Option<+T> = None | Some(value: T)
}
