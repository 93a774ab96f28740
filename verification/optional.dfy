/** The optional value used wherever the TypeScript code has `undefined`. */
module Optional {

  datatype Option<+T> = None | Some(value: T)
}
