/** The optional value used where the scene graph may or may not hold something
    (a JavaScript `undefined` or `false`). */
module Options {

  datatype Option<+T> = None | Some(value: T)
}
