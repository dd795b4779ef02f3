/** The optional value used where the components see JavaScript's `undefined`. */
module Optional {

  datatype Option<+T> = None | Some(value: T)
}
