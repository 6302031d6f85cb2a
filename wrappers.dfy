/** Optional values: `None` stands for an absent value (`undefined` in the
    source) or for a library call that threw. */
module Wrappers {
  datatype Option<+T> = None | Some(value: T)
}
