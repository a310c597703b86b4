/** The conventional Some/None datatype, standing in for Python's `None`-able values. */
module Options {
  datatype Option<+T> = None | Some(value: T)
}
