/** An optional value: a result that may be missing. */
module Optional {
  datatype Option<T> = None | Some(value: T)
}
