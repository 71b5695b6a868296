/** The optional value used wherever the TypeScript implementation returns `undefined` or holds `null`. */
module Options {

  datatype Option<+T> = None | Some(value: T)
}
