/** Optional values: a config key that may be absent, a fallback that may be unset. */
module Wrappers {

  datatype Option<+T> = None | Some(value: T)
}
