/** Small value types shared by the shell's modules. */
module Wrappers {

  /** A value that may be missing; in the containers a `None` slot plays the
      role of a NULL pointer. */
  datatype Option<+T> = None | Some(value: T)
}
