/** How heavy a pool's quote is: the larger side, in whole tokens. */
module Weights {
  import opened Bytes
  import opened Rationals
  import QuoteGraph

  const MIN_WEIGHT: real := 0.000000001

  function Abs(x: int): nat {
    if x < 0 then -x else x
  }

  /** An amount of raw units in whole tokens. */
  function InTokens(amount: nat, dec: nat): (x: real)
    ensures x >= 0.0 && (x > 0.0 <==> amount > 0)
  {
    TimesQuotient(amount as real, Pow(10, dec) as real);
    amount as real / Pow(10, dec) as real
  }

  /** Whole tokens times the raw units of a token are the raw units. */
  lemma TokensTimesScale(amount: nat, dec: nat)
    ensures InTokens(amount, dec) * Pow(10, dec) as real == amount as real
    ensures InTokens(amount, 0) == amount as real
  {
    TimesQuotient(amount as real, Pow(10, dec) as real);
    TimesQuotient(amount as real, Pow(10, 0) as real);
  }

  /** An amount in whole tokens, without its sign; one beyond float64 counts as nothing. */
  function Units(amount: int, dec: nat): (u: real)
    ensures 0.0 <= u <= QuoteGraph.MAX_FLOAT64
  {
    var abs := Abs(amount);
    var units := if dec > 0 then InTokens(abs, dec) else abs as real;
    if units > QuoteGraph.MAX_FLOAT64 then 0.0 else units
  }

  function LargerSide(amount0: int, dec0: nat, amount1: int, dec1: nat): (w: real)
    ensures 0.0 < w <= QuoteGraph.MAX_FLOAT64
  {
    var w0, w1 := Units(amount0, dec0), Units(amount1, dec1);
    var weight := if w0 >= w1 then w0 else w1;
    if weight <= 0.0 then MIN_WEIGHT else weight
  }

  /** For amounts of 32-byte words, the weight is the larger of both in whole tokens and without their signs, whichever
      comes first; two zeros weigh the least. */
  lemma LargerSideOfWords(amount0: int, dec0: nat, amount1: int, dec1: nat)
    requires IsWord(amount0) && IsWord(amount1)
    ensures
      var w := LargerSide(amount0, dec0, amount1, dec1);
      var x0, x1 := InTokens(Abs(amount0), dec0), InTokens(Abs(amount1), dec1);
      && (if amount0 == 0 && amount1 == 0 then w == MIN_WEIGHT else w >= x0 && w >= x1 && (w == x0 || w == x1))
      && w == LargerSide(amount1, dec1, amount0, dec0)
  {
    WordIsFinite(amount0, dec0);
    WordIsFinite(amount1, dec1);
    hide InTokens, Pow, IsWord, QuoteGraph.MAX_FLOAT64;
    ZeroDecimals(Abs(amount0));
    ZeroDecimals(Abs(amount1));
  }

  lemma ZeroDecimals(amount: nat)
    ensures InTokens(amount, 0) == amount as real
  {
    TokensTimesScale(amount, 0);
  }

  /** The signed and the unsigned 32-byte integers. */
  predicate IsWord(amount: int) {
    0 - Modulus(32) <= amount <= Modulus(32)
  }

  lemma WordIsFinite(amount: int, dec: nat)
    requires IsWord(amount)
    ensures InTokens(Abs(amount), dec) <= QuoteGraph.MAX_FLOAT64
  {
    Modulus32();
    AtMost(Abs(amount) as real, Pow(10, dec) as real);
    hide Modulus, Pow;
  }

  lemma AtMost(x: real, k: real)
    requires k >= 1.0 && x >= 0.0
    ensures x / k <= x
  {
  }

  lemma Modulus32()
    ensures Modulus(32) == 115792089237316195423570985008687907853269984665640564039457584007913129639936
  {
    assert Pow(256, 2) == 65536;
    hide Pow;
    Doubled(256, 2, 65536);
    Doubled(256, 4, 4294967296);
    Doubled(256, 8, 18446744073709551616);
    Doubled(256, 16, 340282366920938463463374607431768211456);
  }
}
