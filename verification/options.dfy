/**
  Results that may be absent: the NULL results and FALSE returns of the
  C code.
 */
module Options {

  /** A value, or None where the C code has NULL or FALSE. */
  datatype Option<+T> = None | Some(value: T)
}
