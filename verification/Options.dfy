/** The optional value used wherever the program has `undefined` or `null`, and the outcome of a call that may throw. */
module Options {
  datatype Option<+T> = None | Some(value: T)

  datatype Outcome<+T> = Returned(value: T) | Thrown
}
