/** Prices from sqrtPriceX96, the square root of token1 per token0 scaled by 2^96 (Uniswap V3 and V4). */
module SqrtPrices {
  import opened Bytes
  import opened Options
  import opened Rationals

  /** 2 to the power of 192. */
  const TWO_POW_192: nat := 6277101735386680763835789423207666416102355444464034512896

  lemma TwoPow192()
    ensures TWO_POW_192 == Pow(2, 192)
  {
    assert Pow(2, 3) == 8;
    hide Pow;
    Doubled(2, 3, 8);
    Doubled(2, 6, 64);
    Doubled(2, 12, 4096);
    Doubled(2, 24, 16777216);
    Doubled(2, 48, 281474976710656);
    Doubled(2, 96, 79228162514264337593543950336);
  }

  /** Both directions of a pool's price. */
  datatype Prices = Prices(price1Per0: real, price0Per1: real)

  /** The squared square root without its scale: raw token1 units per raw token0 unit. */
  function Raw(s: int): real {
    (s * s) as real / TWO_POW_192 as real
  }

  /** Turns a price of raw units into one of whole tokens. */
  function Adjust(a: nat, b: nat): real
    requires b > 0
  {
    a as real / b as real
  }

  // ---------------------------------------------------------------- V3

  function V3PriceFromSqrt(s: int): Option<real> {
    if s == 0 then None else Some(Raw(s))
  }

  function V3DecimalAdjust(dec0: nat, dec1: nat): real {
    Adjust(Pow(10, dec0), Pow(10, dec1))
  }

  /** The decimal adjustment is applied only with metadata and two positive decimals. */
  function V3Prices(s: int, dec0: nat, dec1: nat, hasMeta: bool): Option<Prices> {
    match V3PriceFromSqrt(s)
    case None => None
    case Some(raw) =>
      var price := if hasMeta && dec0 > 0 && dec1 > 0 then raw * V3DecimalAdjust(dec0, dec1) else raw;
      match Invert(price)
      case None => None
      case Some(inverse) => Some(Prices(price, inverse))
  }

  // ---------------------------------------------------------------- V4

  function V4Pow10(dec: int): (p: nat)
    ensures p > 0
  {
    if dec <= 0 then 1 else Pow(10, dec)
  }

  function V4Prices(s: int, dec0: int, dec1: int): Option<Prices> {
    if s <= 0 then None else
    var price := Raw(s) * Adjust(V4Pow10(dec0), V4Pow10(dec1));
    match Invert(price)
    case None => None
    case Some(inverse) => Some(Prices(price, inverse))
  }

  // ---------------------------------------------------------------- arithmetic

  lemma RawPositive(s: int)
    requires s != 0
    ensures Raw(s) > 0.0
  {
  }

  lemma {:induction false} PowersOfTenGrow(m: nat, n: nat)
    requires m < n
    ensures Pow(10, m) < Pow(10, n)
  {
    if m < n - 1 {
      PowersOfTenGrow(m, n - 1);
    }
  }

  // ---------------------------------------------------------------- properties

  /** A price with its inverse. */
  function Both(r: real): Prices
    requires r != 0.0
  {
    Prices(r, 1.0 / r)
  }

  /** V4 prices every positive square root, and its two directions multiply to one. */
  lemma V4Succeeds(s: int, dec0: int, dec1: int)
    ensures V4Prices(s, dec0, dec1).Some? <==> s > 0
    ensures s > 0 ==>
      var r := Raw(s) * Adjust(V4Pow10(dec0), V4Pow10(dec1));
      var p := V4Prices(s, dec0, dec1).value;
      r > 0.0 && p == Both(r) && p.price1Per0 == r && p.price1Per0 * p.price0Per1 == 1.0
  {
  }

  lemma V3Succeeds(s: int, dec0: nat, dec1: nat, hasMeta: bool)
    requires s > 0
    ensures
      var r := if hasMeta && dec0 > 0 && dec1 > 0 then Raw(s) * V3DecimalAdjust(dec0, dec1) else Raw(s);
      r > 0.0 && V3Prices(s, dec0, dec1, hasMeta) == Some(Both(r))
  {
    RawPositive(s);
    PositiveQuotient(Pow(10, dec0) as real, Pow(10, dec1) as real);
    PositiveProduct(Raw(s), V3DecimalAdjust(dec0, dec1));
    hide Raw, V3DecimalAdjust;
    var r := if hasMeta && dec0 > 0 && dec1 > 0 then Raw(s) * V3DecimalAdjust(dec0, dec1) else Raw(s);
    assert V3Prices(s, dec0, dec1, hasMeta).value.price1Per0 == r;
    assert V3Prices(s, dec0, dec1, hasMeta).value.price0Per1 == 1.0 / r;
  }

  /** V3 and V4 agree on a pool exactly when both decimals are known and positive, or equal. */
  lemma V3AgreesWithV4Iff(s: int, dec0: nat, dec1: nat, hasMeta: bool)
    requires s > 0
    ensures V3Prices(s, dec0, dec1, hasMeta) == V4Prices(s, dec0, dec1) <==>
      (hasMeta && dec0 > 0 && dec1 > 0) || dec0 == dec1
  {
    RawPositive(s);
    V4Succeeds(s, dec0, dec1);
    V3Succeeds(s, dec0, dec1, hasMeta);
    assert V4Pow10(dec0) == Pow(10, dec0) && V4Pow10(dec1) == Pow(10, dec1);
    UnitAdjust(dec0, dec1);
    OnlyOneKeeps(Raw(s), Adjust(Pow(10, dec0), Pow(10, dec1)));
    hide *;
  }

  lemma UnitAdjust(dec0: nat, dec1: nat)
    ensures Adjust(Pow(10, dec0), Pow(10, dec1)) == 1.0 <==> dec0 == dec1
  {
    if dec0 < dec1 {
      PowersOfTenGrow(dec0, dec1);
    } else if dec1 < dec0 {
      PowersOfTenGrow(dec1, dec0);
    }
    hide Pow;
    UnitQuotient(Pow(10, dec0) as real, Pow(10, dec1) as real);
  }

  lemma UnitQuotient(a: real, b: real)
    requires b > 0.0
    ensures a / b == 1.0 <==> a == b
  {
  }

  lemma OnlyOneKeeps(x: real, a: real)
    requires x > 0.0
    ensures x * a == x <==> a == 1.0
  {
  }

  /** The price grows strictly with the square root. */
  lemma PricesIncrease(s: int, t: int, dec0: int, dec1: int)
    requires 0 < s < t
    ensures V4Prices(s, dec0, dec1).value.price1Per0 < V4Prices(t, dec0, dec1).value.price1Per0
    ensures V4Prices(s, dec0, dec1).value.price0Per1 > V4Prices(t, dec0, dec1).value.price0Per1
  {
    V4Succeeds(s, dec0, dec1);
    V4Succeeds(t, dec0, dec1);
    RawIncreases(s, t);
    PositiveQuotient(V4Pow10(dec0) as real, V4Pow10(dec1) as real);
    hide Raw, V4Pow10, V4Prices;
    var a := Adjust(V4Pow10(dec0), V4Pow10(dec1));
    Scale(Raw(s), Raw(t), a);
    InversesDecrease(V4Prices(s, dec0, dec1).value, V4Prices(t, dec0, dec1).value);
  }

  lemma RawIncreases(s: int, t: int)
    requires 0 < s < t
    ensures Raw(s) < Raw(t)
  {
  }

  lemma InversesDecrease(p: Prices, q: Prices)
    requires 0.0 < p.price1Per0 < q.price1Per0
    requires p.price1Per0 * p.price0Per1 == 1.0 && q.price1Per0 * q.price0Per1 == 1.0
    ensures p.price0Per1 > q.price0Per1
  {
  }

  /** Exchanging the tokens of a pool exchanges the directions of its price, up to how far the new square root is
      from being the inverse of the old one, and exactly when it is the inverse. */
  lemma SwappedTokensSwapPrices(s: int, t: int, dec0: int, dec1: int)
    requires s > 0 && t > 0
    ensures
      var p, q, d := V4Prices(s, dec0, dec1).value, V4Prices(t, dec1, dec0).value, Raw(s) * Raw(t);
      && q.price1Per0 == p.price0Per1 * d && q.price0Per1 * d == p.price1Per0
      && (q == Prices(p.price0Per1, p.price1Per0) <==> s * t == TWO_POW_192)
  {
    hide *;
    V4Succeeds(s, dec0, dec1);
    V4Succeeds(t, dec1, dec0);
    RawProduct(s, t);
    AdjustInverse(V4Pow10(dec0), V4Pow10(dec1));
    ScaledFactors(V4Prices(s, dec0, dec1).value, Raw(s), Adjust(V4Pow10(dec0), V4Pow10(dec1)),
                  V4Prices(t, dec1, dec0).value, Raw(t), Adjust(V4Pow10(dec1), V4Pow10(dec0)));
  }

  lemma ScaledFactors(p: Prices, x: real, a: real, q: Prices, y: real, b: real)
    requires p.price1Per0 == x * a > 0.0 && q.price1Per0 == y * b > 0.0 && a * b == 1.0
    requires p.price1Per0 * p.price0Per1 == 1.0 && q.price1Per0 * q.price0Per1 == 1.0
    ensures q.price1Per0 == p.price0Per1 * (x * y) && q.price0Per1 * (x * y) == p.price1Per0
    ensures q == Prices(p.price0Per1, p.price1Per0) <==> x * y == 1.0
  {
    Regroup(x, a, y, b);
    Cancel(p.price1Per0, p.price0Per1, q.price1Per0);
    Cancel(q.price1Per0, q.price0Per1, p.price1Per0);
  }

  lemma Regroup(x: real, a: real, y: real, b: real)
    requires a * b == 1.0
    ensures x * a * (y * b) == x * y
  {
    assert x * a * (y * b) == x * y * (a * b);
  }

  lemma Cancel(u: real, v: real, m: real)
    requires u * v == 1.0
    ensures v * (u * m) == m == v * (m * u)
  {
    assert v * (u * m) == u * v * m;
  }

  /** The product of two raw prices is one exactly for a pair of inverse square roots. */
  lemma RawProduct(s: int, t: int)
    requires s > 0 && t > 0
    ensures Raw(s) * Raw(t) == (s * t) as real / TWO_POW_192 as real * ((s * t) as real / TWO_POW_192 as real)
    ensures Raw(s) * Raw(t) == 1.0 <==> s * t == TWO_POW_192
  {
    var x, y, k := s as real, t as real, TWO_POW_192 as real;
    assert (s * s) as real == x * x && (t * t) as real == y * y && (s * t) as real == x * y;
    ProductOfSquares(x, y, k);
    UnitSquare(x * y / k);
  }

  lemma ProductOfSquares(x: real, y: real, k: real)
    requires k > 0.0
    ensures x * x / k * (y * y / k) == x * y / k * (x * y / k)
  {
    var i := 1.0 / k;
    assert x * x / k == x * x * i && y * y / k == y * y * i && x * y / k == x * y * i;
    assert x * x * i * (y * y * i) == x * y * i * (x * y * i);
  }

  lemma UnitSquare(r: real)
    requires r > 0.0
    ensures r * r == 1.0 <==> r == 1.0
  {
  }

  /** The integer square root of the exchanged pool is the inverse one rounded down; its price is then lower by less
      than a share of 2s / 2^192. */
  lemma RoundedInverseError(s: int, dec0: int, dec1: int)
    requires 0 < s <= TWO_POW_192
    ensures
      var exact := V4Prices(s, dec0, dec1).value.price0Per1;
      var price := V4Prices(TWO_POW_192 / s, dec1, dec0).value.price1Per0;
      exact * (1.0 - 2.0 * (s as real / TWO_POW_192 as real)) < price <= exact
  {
    hide *;
    var t := TWO_POW_192 / s;
    FloorBounds(TWO_POW_192, s);
    SwappedTokensSwapPrices(s, t, dec0, dec1);
    V4Succeeds(s, dec0, dec1);
    RoundedProduct(s, t);
    var exact := V4Prices(s, dec0, dec1).value.price0Per1;
    Between(exact, 1.0 - 2.0 * (s as real / TWO_POW_192 as real), Raw(s) * Raw(t), 1.0);
  }

  lemma RoundedProduct(s: int, t: int)
    requires 0 < s && 0 < t && TWO_POW_192 - s < s * t <= TWO_POW_192
    ensures 1.0 - 2.0 * (s as real / TWO_POW_192 as real) < Raw(s) * Raw(t) <= 1.0
  {
    hide Raw;
    RawProduct(s, t);
    SquareOfShare(TWO_POW_192, s, s * t);
  }

  lemma SquareOfShare(k: int, s: int, p: int)
    requires 0 < s <= k && k - s < p <= k
    ensures 1.0 - 2.0 * (s as real / k as real) < p as real / k as real * (p as real / k as real) <= 1.0
  {
    Shares(k as real, s as real, p as real);
    NearUnitSquare(p as real / k as real, s as real / k as real);
  }

  lemma Shares(k: real, s: real, p: real)
    requires 0.0 < s <= k && k - s < p <= k
    ensures 1.0 - s / k < p / k <= 1.0 && 0.0 < s / k <= 1.0
  {
    var i := 1.0 / k;
    assert k * i == 1.0 && s / k == s * i && p / k == p * i;
    Between(i, k - s, p, k);
    assert i * (k - s) == k * i - s * i;
  }

  lemma Between(x: real, lo: real, d: real, hi: real)
    requires x > 0.0 && lo < d <= hi
    ensures x * lo < x * d <= x * hi
  {
  }

  lemma FloorBounds(k: nat, s: nat)
    requires 0 < s <= k
    ensures k / s > 0 && k - s < s * (k / s) <= k
  {
  }

  lemma NearUnitSquare(r: real, e: real)
    requires 1.0 - e < r <= 1.0 && 0.0 < e <= 1.0
    ensures 1.0 - 2.0 * e < r * r <= 1.0
  {
    Between(r, 0.0, r, 1.0);
    assert (1.0 - r) * (1.0 - r) >= 0.0;
  }

  lemma AdjustInverse(a: nat, b: nat)
    requires a > 0 && b > 0
    ensures Adjust(a, b) * Adjust(b, a) == 1.0
  {
  }

  /** If the square root is fair for raw units, the adjusted price is fair for whole tokens. */
  lemma FairSqrtIsFairPrice(s: int, dec0: int, dec1: int, value0: real, value1: real)
    requires s > 0 && value0 > 0.0 && value1 > 0.0
    requires Raw(s) * (value1 / V4Pow10(dec1) as real) == value0 / V4Pow10(dec0) as real
    ensures V4Prices(s, dec0, dec1).value.price1Per0 * value1 == value0
  {
  }

  /** V3's price is fair exactly when it agrees with V4's: both decimals positive, or equal. */
  lemma V3FairIff(s: int, dec0: nat, dec1: nat, value0: real, value1: real)
    requires s > 0 && value0 > 0.0 && value1 > 0.0
    requires Raw(s) * (value1 / V4Pow10(dec1) as real) == value0 / V4Pow10(dec0) as real
    ensures V3Prices(s, dec0, dec1, true).Some?
    ensures V3Prices(s, dec0, dec1, true).value.price1Per0 * value1 == value0 <==>
      (dec0 > 0 && dec1 > 0) || dec0 == dec1
  {
    FairSqrtIsFairPrice(s, dec0, dec1, value0, value1);
    V4Succeeds(s, dec0, dec1);
    V3Succeeds(s, dec0, dec1, true);
    V3AgreesWithV4Iff(s, dec0, dec1, true);
    hide V3Prices, V4Prices, Raw, V4Pow10, Adjust, V3DecimalAdjust;
    var p, q := V3Prices(s, dec0, dec1, true).value, V4Prices(s, dec0, dec1).value;
    assert p == q <==> p.price1Per0 == q.price1Per0;
    hide *;
    SameProductIff(p.price1Per0, q.price1Per0, value1);
  }

  lemma SameProductIff(x: real, y: real, v: real)
    requires v > 0.0
    ensures x * v == y * v <==> x == y
  {
  }
}
