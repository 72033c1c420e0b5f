/** The conventional Some/None wrapper, used for nullable references and failed lookups. */
module Optional {

  datatype Option<+T> = None | Some(value: T)
}
