/** The optional value of the source's std::optional. */
module Options {
  datatype Option<+T> = None | Some(value: T)
}
