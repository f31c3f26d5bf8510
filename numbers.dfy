/** Arithmetic on levels and location IDs shared by the solvers. */
module Numbers {

  /** `abs_diff` of two unsigned numbers: the distance between them. */
  function AbsDiff(a: nat, b: nat): (d: nat)
    ensures a + d == b || b + d == a
  {
    if a < b then b - a else a - b
  }
}
