/** An optional value, for the places where the Python code uses `None`. */
module Optional {
  datatype Option<+T> = None | Some(value: T)
}
