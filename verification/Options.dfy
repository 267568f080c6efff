/** The two-case wrapper used for values a program may not have. */
module Options {
  datatype Option<+T> = None | Some(value: T)
}
