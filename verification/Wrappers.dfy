/** A value that may be missing: an absent posting, or a load that threw. */
module Wrappers {

  datatype Option<+T> = None | Some(value: T)
}
