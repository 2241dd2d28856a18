/** The optional value used where the program has a std::optional or a null pointer. */
module Options {
  datatype Option<+T> = None | Some(value: T)
}
