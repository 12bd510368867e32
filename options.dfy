/** The optional value used where the router returns a nil pointer or nil map. */
module Options {
  datatype Option<T> = None | Some(value: T)
}
