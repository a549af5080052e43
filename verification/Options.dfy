/** A value that may be absent: Python's Optional. */
module Options {

  datatype Option<T> = None | Some(value: T)
}
