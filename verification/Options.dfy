/** An optional value, for null pointers and for `Option`. */
module Options {
  datatype Option<+T> = None | Some(value: T)
}
