/** A value that may be absent: the source's nil pointers, nil functions and missing map entries. */
module Options {
  datatype Option<+T> = None | Some(value: T)
}
