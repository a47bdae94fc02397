/** Failure-carrying datatypes shared by the model.
    - Option<T> stands for a grid cell that either holds a number or the
      not-a-number sentinel the plotting code treats as a gap.
    - Result<T, E> stands for an operation that either completes or raises.
 */
module Wrappers {

  datatype Option<+T> = None | Some(value: T)

  datatype Result<+T, +E> = Ok(value: T) | Err(error: E)
}
