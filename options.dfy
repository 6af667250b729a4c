// The optional value the bot represents with `null`/`undefined`.

module Options {

  datatype Option<+T> = None | Some(value: T)
}
