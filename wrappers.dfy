/** The optional value used for nullable inputs (a missing route id, an absent user, a null list). */
module Wrappers {
  datatype Option<+T> = None | Some(value: T)
}
