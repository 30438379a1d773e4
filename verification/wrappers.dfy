/** Optional values: the Go sources express "absent" with nil, which becomes
    `None` here. */
module Wrappers {

  datatype Option<+T> = None | Some(value: T)
}
