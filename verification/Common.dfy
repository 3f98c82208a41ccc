/** Small shared datatypes. */
module Common {

  /** A value that may be missing; `None` also stands for the exception a Python function raises. */
  datatype Option<+T> = None | Some(value: T)

  function Min(a: int, b: int): int { if a <= b then a else b }

  function Max(a: int, b: int): int { if a >= b then a else b }

  /** Two different values with one digest. */
  predicate Collide<T(==)>(h: T -> string, x: T, y: T) { x != y && h(x) == h(y) }
}
