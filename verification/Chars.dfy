/** Characters and strings of C. */
module Chars {

  const NUL: char := 0 as char

  /** A C string: no NUL before the end. */
  ghost predicate CString(s: string) { NUL !in s }

  predicate Digit(c: char) { '0' <= c <= '9' }
}
