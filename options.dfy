/** The optional value used wherever the extractor may hold Python's `None`. */
module Options {

  datatype Option<+T> = None | Some(value: T)
}
