/**
 * An optional value: the type of an activity (absent when the activity object
 * has no `type` attribute) and the result of reading a duration back.
 */
module Wrappers {

  datatype Option<+T> = None | Some(value: T)
}
