/** An optional value: a JavaScript `undefined` or a present value. */
module Options {
  datatype Option<+T> = None | Some(value: T)
}
