/** Numeric helpers shared by the engine: the optional result that replaces the
    positive-infinity "no hit" sentinel, C#'s truncating (int) cast and the
    Math.Min / Math.Max calls. */
module Numerics {

  datatype Option<+T> = None | Some(value: T)

  /** The C# cast `(int)d` of a finite double: rounds toward zero. */
  function Trunc(x: real): (r: int)
    ensures 0.0 <= x ==> 0 <= r && r as real <= x < r as real + 1.0
    ensures x < 0.0 ==> r <= 0 && x <= r as real < x + 1.0
  {
    if 0.0 <= x then x.Floor else -((-x).Floor)
  }

  /** Trunc is the identity on whole numbers. */
  lemma TruncOfInt(n: int)
    ensures Trunc(n as real) == n
  {
  }

  // Math.Min and Math.Max: the smaller (larger) argument, the first one on a
  // tie. MinInt is the int overload, MinReal and MaxReal the double ones.
  function MinInt(a: int, b: int): (r: int)
    ensures r <= a && r <= b && (r == a || r == b)
  {
    if a <= b then a else b
  }

  function MinReal(a: real, b: real): (r: real)
    ensures r <= a && r <= b && (r == a || r == b)
  {
    if a <= b then a else b
  }

  function MaxReal(a: real, b: real): (r: real)
    ensures a <= r && b <= r && (r == a || r == b)
  {
    if a >= b then a else b
  }
}
