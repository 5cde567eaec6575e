/** Small failure-carrying datatypes shared by the mesh models. */
module Outcomes {

  /** A value that may be absent, as the `error` state of the cell mesher. */
  datatype Option<+T> = None | Some(value: T)

  /** Either a computed value or the error that stopped the computation. */
  datatype Result<+T, +E> = Ok(value: T) | Err(error: E)
}
