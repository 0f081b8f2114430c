/** The optional value used wherever the C code uses NULL, a sentinel or "none". */
module Options {
  datatype Option<+T> = None | Some(value: T)
}
