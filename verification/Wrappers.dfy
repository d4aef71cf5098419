/** The absent-or-present and success-or-error values shared by the other modules. */
module Wrappers {

  datatype Option<+T> = None | Some(value: T)

  datatype Result<+T, +E> = Ok(value: T) | Err(error: E)

  /** What a reader made of the beginning of a text, and what is left of it. */
  datatype Read<T> = Read(value: T, rest: string)
}
