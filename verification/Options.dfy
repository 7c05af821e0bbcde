/** A value that may be missing: an undefined field, a lookup that finds nothing. */
module Options {

  datatype Option<+T> = None | Some(value: T)
}
