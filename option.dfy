// The optional value used for "a hit record, or no hit".
module Options {

  datatype Option<+T> = None | Some(value: T)
}
