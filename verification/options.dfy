/** A value that may be missing: a null, a `None`, an `npos`. */
module Options {
  datatype Option<+T> = None | Some(value: T)
}
