/** The optional value used across the model where the original uses `Option`. */
module Options {
  datatype Option<+T> = None | Some(value: T)
}
