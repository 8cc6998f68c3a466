/** Result and option types shared by the modules of this project. */
module Prelude {

  datatype Option<+T> = None | Some(value: T)

  /** The C++ sources report failures by throwing; here they are values. */
  datatype Result<+T, +E> = Ok(value: T) | Err(error: E)
}
