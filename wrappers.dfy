/** Optional values, results and the small arithmetic shared by the other modules. */
module Wrappers {
  datatype Option<+T> = None | Some(value: T)

  datatype Result<+R, +E> = Success(value: R) | Failure(error: E)

  function Min(x: nat, y: nat): nat {
    if x <= y then x else y
  }
}
