/** The option type that stands for C's nullable pointers and absent values. */
module Wrappers {
  datatype Option<+T> = None | Some(value: T)
}
