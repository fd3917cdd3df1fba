/** The optional value used wherever the plugin may find nothing (a missing
    completion date, an absent column). */
module Wrappers {
  datatype Option<+T> = None | Some(value: T)
}
