/** Simulated instants: finite real times extended with the `float('inf')`
    that a node reports when no customer is in service, and Python's `int()`
    conversion that the clock uses. */
module Times {

  /** A length of time; every duration the simulation draws is non-negative. */
  type Duration = r: real | 0.0 <= r

  /** A time that may be infinite. */
  datatype ExtReal = Finite(v: real) | Infinity

  /** `a <= b` in the extended order (every finite time is below infinity). */
  predicate Le(a: ExtReal, b: ExtReal)
  {
    match (a, b)
    case (_, Infinity) => true
    case (Infinity, Finite(_)) => false
    case (Finite(x), Finite(y)) => x <= y
  }

  /** `e >= x` for a finite bound `x`. */
  predicate AtLeast(e: ExtReal, x: real)
  {
    e.Infinity? || e.v >= x
  }

  /** Python's `min` on two (possibly infinite) times. */
  function Min(a: ExtReal, b: ExtReal): (r: ExtReal)
    ensures r == a || r == b
    ensures Le(r, a) && Le(r, b)
  {
    if Le(a, b) then a else b
  }

  /** Folding in a value no later than one already folded drops that one. */
  lemma MinFold(a: ExtReal, b: ExtReal, c: ExtReal)
    requires Le(c, b)
    ensures Min(Min(a, b), c) == Min(a, c)
  {
  }

  /** Python's `int(x)` on a float: truncation toward zero. */
  function Trunc(x: real): (r: int)
    ensures x >= 0.0 ==> r >= 0 && r as real <= x < r as real + 1.0
    ensures x < 0.0 ==> r <= 0 && r as real - 1.0 < x <= r as real
  {
    if x >= 0.0 then x.Floor else -((-x).Floor)
  }

  /** Python's `min` on two finite times. */
  function MinReal(a: real, b: real): (r: real)
    ensures r <= a && r <= b && (r == a || r == b)
  {
    if a <= b then a else b
  }
}
