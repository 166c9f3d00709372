/** Optional values and the error results of store and engine calls.
    An `Err` stands for a rejected promise (a thrown error). */
module Wrappers {

  datatype Option<+T> = None | Some(value: T)

  datatype Result<+T> = Ok(value: T) | Err(error: string)

  /** The result of an operation that returns nothing on success. */
  datatype Outcome = Done | Failed(error: string)
}
