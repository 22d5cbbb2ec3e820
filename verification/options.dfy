/** A possibly-absent value; `None` plays the part of a null pointer. */
module Options {

  datatype Option<+T> = None | Some(value: T)
}
