/** What several models share. */
module Common {

  /** None stands for null. */
  datatype Option<+T> = None | Some(value: T)

  function Max(a: int, b: int): int { if a >= b then a else b }
}
