/** An optional value: `None` stands for a Python exception or a missing object. */
module Options {

  datatype Option<+T> = None | Some(value: T)
}
