// A result that may be missing, standing in for the source's `None`.

module Options {
  datatype Option<T> = None | Some(value: T)
}
