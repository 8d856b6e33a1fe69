/** The optional value used for "no error" / "no navigation" and for failed lookups. */
module Options {

  datatype Option<+T> = None | Some(value: T)
}
