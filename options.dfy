/** The optional value used wherever the JavaScript code tests for `null`,
    `undefined` or an empty result. */
module Options {
  datatype Option<+T> = None | Some(value: T)
}
