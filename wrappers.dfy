/** Optional values and results shared by the modules of this model.
    `None` stands for JavaScript's `undefined`; `Err` for a thrown error. */
module Wrappers {

  datatype Option<+T> = None | Some(value: T)

  datatype Result<+T, +E> = Ok(value: T) | Err(error: E)
}
