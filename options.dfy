/** An optional value: a request key that may be absent, a lookup that may miss. */
module Options {

  datatype Option<+T> = None | Some(value: T)

}
