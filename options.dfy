/** The optional value that JavaScript expresses with `null`. */
module Options {

  datatype Option<+T> = None | Some(value: T)
}
