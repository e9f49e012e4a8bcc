/** Types that several modules share. */
module Wrappers {
  /** A value that may be missing. */
  datatype Option<T> = None | Some(value: T)

  /** A C string without its terminator. */
  type CString = s: string | '\0' !in s
}
