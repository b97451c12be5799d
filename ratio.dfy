/** Facts about the quotient of two integers, as both pipelines compute percentages from counts. */
module Ratio {

  /** The sign and size of `a / b` for a positive denominator. */
  lemma QuotientFacts(a: int, b: int)
    requires b > 0
    ensures a as real / b as real < 0.0 <==> a < 0
    ensures a as real / b as real == 0.0 <==> a == 0
    ensures a as real / b as real <= 1.0 <==> a <= b
    ensures a as real / b as real == 1.0 <==> a == b
  {
    var q := a as real / b as real;
    assert q * b as real == a as real;
    if q < 0.0 { assert q * b as real < 0.0; }
    if q > 1.0 { assert q * b as real > b as real; }
    if q < 1.0 { assert q * b as real < b as real; }
  }
}
