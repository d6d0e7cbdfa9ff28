/** The absent-or-present value used where the JavaScript code reads `null`. */
module Optional {

  datatype Option<+T> = None | Some(value: T)
}
