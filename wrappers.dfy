/** Optional values: Python's `None` versus a present value. */
module Wrappers {
  datatype Option<+T> = None | Some(value: T)

  /** `if path:` on an optional file name: given and not the empty string. */
  predicate PathGiven(path: Option<string>)
  {
    path.Some? && path.value != ""
  }
}
