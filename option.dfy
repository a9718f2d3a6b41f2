/** The optional value used for "found / not found" results. */
module Options {
  datatype Option<T> = None | Some(value: T)
}
