/** A value that may be missing: None in Python, null in JavaScript, NULL in SQL. */
module Options {
  datatype Option<+T> = None | Some(value: T)
}
