/** The optional value that `Array.prototype.find` and a record lookup return. */
module Optional {

  datatype Option<+T> = None | Some(value: T)
}
