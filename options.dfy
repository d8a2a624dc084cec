/** The optional value used by the lookup tables and the literal parsers. */
module Options {

  datatype Option<+T> = None | Some(value: T)
}
