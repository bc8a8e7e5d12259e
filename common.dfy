/** Small value wrappers shared by the other modules. */
module Common {

  /** A value that may be absent (a nullable database column or an unset session field). */
  datatype Option<T> = None | Some(value: T)

  function Min(a: int, b: int): int { if a <= b then a else b }

  function Max(a: int, b: int): int { if a >= b then a else b }
}
