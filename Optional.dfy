/** The optional value used for nullable references and absent lookups. */
module Optional {
  datatype Option<T> = None | Some(value: T)
}
