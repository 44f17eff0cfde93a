/** The optional values of the application: a JavaScript `undefined` or an emitted-nothing. */
module Options {

  datatype Option<+T> = None | Some(value: T)
}
