/** Exact rational arithmetic, big.Rat's, on reals. */
module Rationals {
  import opened Options

  /** The inverse, if there is one. */
  function Invert(r: real): Option<real> {
    if r == 0.0 then None else Some(1.0 / r)
  }

  lemma PositiveProduct(x: real, y: real)
    requires x > 0.0 && y > 0.0
    ensures x * y > 0.0
  {
  }

  lemma PositiveQuotient(x: real, y: real)
    requires x > 0.0 && y > 0.0
    ensures x / y > 0.0
  {
  }

  lemma TimesQuotient(x: real, y: real)
    requires y > 0.0
    ensures x / y * y == x
    ensures x > 0.0 <==> x / y > 0.0
  {
  }

  lemma Scale(x: real, y: real, a: real)
    requires x < y && a > 0.0
    ensures x * a < y * a
  {
  }
}
