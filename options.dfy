/** The optional value used for dictionary keys and for parse results. */
module Options {

  datatype Option<+T> = None | Some(value: T)
}
