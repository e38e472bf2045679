/**
 What several components share.
 */
module Wrappers {

  datatype Option<+T> = None | Some(value: T)

  datatype Risk = Low | Medium | High
}
