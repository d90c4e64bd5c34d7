/** Values that stand for what a JavaScript call produces: an ordinary return
    or a thrown exception, and a value that may be `undefined`. */
module Outcome {

  /** The settled state of one awaited call: it returned `value` or threw `error`. */
  datatype Attempt<+T, +E> = Returned(value: T) | Threw(error: E)

  /** A value that may be absent (`undefined` in the source). */
  datatype Option<+T> = None | Some(value: T)

  /** JavaScript truthiness of an optional string: `undefined` and `""` are falsy. */
  predicate Truthy(s: Option<string>) {
    s.Some? && s.value != ""
  }
}
