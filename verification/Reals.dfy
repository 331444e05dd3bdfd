/** Small facts about real products and quotients that the other modules call by name. */
module Reals {

  /** A product whose sign is known from its factors. */
  function Mul(x: real, y: real): (p: real)
    ensures x > 0.0 && y > 0.0 ==> p > 0.0
    ensures x >= 0.0 && y >= 0.0 ==> p >= 0.0
    ensures x <= 0.0 && y <= 0.0 ==> p >= 0.0
    ensures x < 0.0 && y > 0.0 ==> p < 0.0
  {
    x * y
  }

  function Sq(x: real): (p: real)
    ensures p >= 0.0
    ensures x > 0.0 ==> p > 0.0
  {
    Mul(x, x)
  }

  lemma QuotientIs(q: real, x: real, d: real)
    requires d != 0.0 && q * d == x
    ensures q == x / d
  {
  }

  lemma QuotientTimes(x: real, d: real)
    requires d != 0.0
    ensures x / d * d == x
  {
  }

  lemma ProductMonotone(x: real, y: real, k: real)
    requires x <= y && k >= 0.0
    ensures x * k <= y * k
  {
    assert Mul(y - x, k) >= 0.0;
  }

  lemma SquaresOrdered(x: real, y: real)
    requires 0.0 <= x < y
    ensures x * x < y * y
  {
    assert Mul(y - x, y + x) > 0.0;
  }

  lemma SameRoot(x: real, y: real)
    requires x >= 0.0 && y >= 0.0 && Sq(x) == Sq(y)
    ensures x == y
  {
    if x < y { SquaresOrdered(x, y); } else if y < x { SquaresOrdered(y, x); }
  }

  lemma SquaresWithin(x: real, y: real)
    requires -y <= x <= y
    ensures x * x <= y * y
  {
    assert Mul(y - x, y + x) >= 0.0;
  }

  lemma ProductStrict(x: real, y: real, k: real)
    requires x < y && k > 0.0
    ensures x * k < y * k
  {
    assert Mul(y - x, k) > 0.0;
  }

  lemma QuotientBelow(x: real, d: real, y: real)
    requires d > 0.0 && x <= y * d
    ensures x / d <= y
  {
    QuotientTimes(x, d);
    if x / d > y { ProductStrict(y, x / d, d); }
  }
}
