/** Optional values and results, as the action's JavaScript values use them:
    a nullable field is an Option, a step that may throw yields a Result. */
module Wrappers {

  datatype Option<+T> = None | Some(value: T)

  datatype Result<+T, +E> = Ok(value: T) | Err(error: E)
}
