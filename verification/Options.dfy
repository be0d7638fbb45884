/** An optional value, used wherever the program has a NULL column, a nil pointer or a miss. */
module Options {
  datatype Option<+T> = None | Some(value: T)
}
