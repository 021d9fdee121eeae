/** Failure-carrying values used across the model: a Python call that raises is
    modelled as a None or an Err, never as a precondition. */
module Wrappers {

  datatype Option<+T> = None | Some(value: T)

  datatype Result<+R, +E> = Ok(value: R) | Err(error: E)
}
