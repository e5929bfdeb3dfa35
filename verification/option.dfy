/** An optional value: the model of a field that may be `undefined` and of a
    value that may be `null`. */
module Optional {
  datatype Option<T> = None | Some(value: T)
}
