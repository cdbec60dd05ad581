/** Failure-carrying result types used by the registry's operations. */
module Wrappers {

  /** A value that may be absent; used for reads that revert on a bad index. */
  datatype Option<+T> = None | Some(value: T)

  /** Either the new state of a successful transaction, or the reason it reverted. */
  datatype Result<+R, +E> = Success(value: R) | Failure(error: E)
}
