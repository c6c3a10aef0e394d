/** A value or none, for the error and absence cases. */
module Options {
  datatype Option<+T> = None | Some(value: T)
}
