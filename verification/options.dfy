/** The optional value used wherever the C code returns a possibly-NULL pointer. */
module Options {

  datatype Option<+T> = None | Some(value: T)
}
