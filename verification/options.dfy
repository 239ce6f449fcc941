/** An optional value: a JavaScript property that may be absent. */
module Options {

  datatype Option<+T> = None | Some(value: T)
}
