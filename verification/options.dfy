// The optional value the models use where the program returns nil, None or
// an extra "ok" result.
module Options {
  datatype Option<+T> = None | Some(value: T)
}
