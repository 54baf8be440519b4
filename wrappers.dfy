/** Optional values: Go's nil pointers (`*time.Time`, `*int`, `*model.X`) become `Option`. */
module Wrappers {

  datatype Option<+T> = None | Some(value: T)

  function Max(a: int, b: int): int
  {
    if a < b then b else a
  }
}
