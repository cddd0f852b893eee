/** The Option type: `None` stands for a JavaScript `null` or an absent property. */
module Wrappers {
  datatype Option<+T> = None | Some(value: T)
}
