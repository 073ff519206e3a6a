/** What the parts of the command line client share. */
module ClientText {

  const NUL: char := '\0'

  datatype Option<T> = None | Some(value: T)

  /** The white space of the single-byte character sets. */
  predicate IsSpace(c: char) {
    c == ' ' || ('\t' <= c <= '\r')
  }
}
