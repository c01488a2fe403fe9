/** Optional values. `None` stands for Go's nil: a nil `*tcell.EventKey` or a nil handler function. */
module Wrappers {

  datatype Option<+T> = None | Some(value: T)
}
