/** Optional values and failure-carrying results, used where the engine
    returns "nothing" or raises an exception. */
module Wrappers {

  datatype Option<+T> = None | Some(value: T)

  /** `Err` stands for a raised exception: the call had no other effect. */
  datatype Result<+T, +E> = Ok(value: T) | Err(error: E)
}
