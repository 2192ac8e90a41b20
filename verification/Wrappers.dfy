/** Optional values, fallible results, and computations that may end the program. */
module Wrappers {

  datatype Option<+T> = None | Some(value: T)

  datatype Result<+T, +E> = Ok(value: T) | Err(error: E)

  datatype Outcome<+T> = Panics | Answers(value: T)

  /** What a build does when fixed-width arithmetic overflows: stop, or wrap around. */
  datatype Build = Checked | Wrapping
}
