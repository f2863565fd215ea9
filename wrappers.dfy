/** Optional values and results with an error, as used across the model. */
module Wrappers {

  datatype Option<+T> = None | Some(value: T)

  /** The one exception the core can raise: `Dictionary.Add` with a key that is already present. */
  datatype Error = DuplicateKey(key: string)

  datatype Result<+T> = Ok(value: T) | Err(error: Error)
}
