/** Optional values, for the places where the application answers "nothing", and results
  * that carry either a value or the text of the exception raised instead. */
module Wrappers {
  datatype Option<T> = None | Some(value: T)

  datatype Result<T> = Success(value: T) | Failure(err: string)
}
