/** Real products by name, for models of floating-point code in which rounding is not the point. */
module Reals {

  function Times(u: real, v: real): real {
    u * v
  }

  lemma TimesSigns(u: real, v: real)
    ensures u > 0.0 && v > 0.0 ==> Times(u, v) > 0.0
    ensures Times(-u, -v) == Times(u, v) && Times(0.0, v) == 0.0 && Times(u, 0.0) == 0.0
  {
  }

  lemma SquarePositive(u: real)
    ensures Times(u, u) >= 0.0 && (u != 0.0 ==> Times(u, u) > 0.0)
  {
    hide Times;
    TimesSigns(u, u);
    TimesSigns(-u, -u);
  }

  lemma ZeroProduct(a: real, b: real)
    requires a != 0.0 && a * b == 0.0
    ensures b == 0.0
  {
  }

  lemma TimesAdd(a: real, b: real, c: real)
    ensures Times(a + b, c) == Times(a, c) + Times(b, c) && Times(c, a + b) == Times(c, a) + Times(c, b)
  {
  }

  lemma TimesSwap(a: real, b: real, c: real)
    ensures Times(a, b) == Times(b, a) && Times(a, Times(b, c)) == Times(b, Times(a, c))
    ensures Times(Times(a, b), c) == Times(a, Times(b, c))
  {
  }

  lemma TimesZero(c: real)
    ensures Times(c, 0.0) == 0.0 && Times(0.0, c) == 0.0
  {
  }
}
