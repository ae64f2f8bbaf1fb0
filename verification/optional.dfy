/** A nullable value: `None` plays the role of JavaScript's `null`. */
module Optional {

  datatype Option<+T> = None | Some(value: T)
}
