/** A value, or none: a missing event, or an operation that raises. */
module Options {

  datatype Option<+T> = None | Some(value: T)
}
