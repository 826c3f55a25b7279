/** Option and Result values used for the launcher's optional fields and its
    thrown errors (a JavaScript `throw new Error(msg)` becomes `Err(msg)`). */
module Wrappers {

  datatype Option<+T> = None | Some(value: T)

  datatype Result<+T> = Ok(value: T) | Err(error: string)
}
