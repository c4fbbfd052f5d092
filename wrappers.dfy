/** The conventional optional value, used for lookups that may miss and for
    collaborators (hashing, signing, request parsing) that may fail. */
module Wrappers {

  datatype Option<+T> = None | Some(value: T)
}
