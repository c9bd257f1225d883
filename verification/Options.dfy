/** A value that may be absent: Python's None and missing dict keys. */
module Options {

  datatype Option<+T> = None | Some(value: T)
}
