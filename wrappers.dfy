/** Optional values: `None` stands for JavaScript's `null`/`undefined`, and
    for a promise that was rejected (a request or a lookup that threw). */
module Wrappers {
  datatype Option<+T> = None | Some(value: T)
}
