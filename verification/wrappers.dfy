/** Failure-carrying result types used where the computation throws. */
module Wrappers {

  datatype Option<+T> = None | Some(value: T)

  /** The runtime errors the scoring core raises; none of them is recovered. */
  datatype Error =
    | LeafNotFound        // a taxon is missing from the Euler-tour range of a subtree
    | NoInnerLinks        // the inner links of a path are asked for between a node and itself
    | InsufficientMemory  // the compact lookup table does not fit into memory

  datatype Result<+R> = Success(value: R) | Failure(error: Error)
}
