/** Optional values: JavaScript's `null`/`undefined` results where the code
    returns "nothing", and the map's nullable objects. */
module Wrappers {

  datatype Option<+T> = None | Some(value: T)

  function Min(a: int, b: int): int { if a <= b then a else b }

  function Max(a: int, b: int): int { if a >= b then a else b }
}
