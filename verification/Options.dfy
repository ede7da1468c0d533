/** The optional value used throughout the gateway model. */
module Options {
  datatype Option<+T> = None | Some(value: T)
}
