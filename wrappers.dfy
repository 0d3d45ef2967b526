/** Optional values and the results of operations that can throw. */
module Wrappers {

  /** A value that may be absent: `undefined`/`null` in the source. */
  datatype Option<+T> = None | Some(value: T)

  /** The outcome of a storage operation that throws on failure. */
  datatype Result<+R, +E> = Success(value: R) | Failure(error: E)

  function Min(a: nat, b: nat): nat
  {
    if a <= b then a else b
  }
}
