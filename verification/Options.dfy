/** The optional value used throughout the model for Go's nil-able results and fields. */
module Options {
  datatype Option<+T> = None | Some(value: T)
}
