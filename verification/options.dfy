/** The optional value used throughout the model: `None` stands for JavaScript's
    `undefined` or `null` where the source reads a field that may be absent. */
module Options {

  datatype Option<+T> = None | Some(value: T)
}
