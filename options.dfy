/** An optional value: `None` stands for Python's `None` result. */
module Options {
  datatype Option<+T> = None | Some(value: T)
}
