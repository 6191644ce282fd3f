/** The conventional optional-value datatype: a Redis field that is absent
    (`nil` in the client) is `None`. */
module Wrappers {

  datatype Option<+T> = None | Some(value: T)
}
