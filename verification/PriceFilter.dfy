/** The one-basis-point filter that thins out a pool's stream of prices. */
module PriceFilter {
  import opened Sequences

  function Abs(x: real): real {
    if x < 0.0 then -x else x
  }

  /** A price worth publishing after `last`: it differs, by at least one basis point. */
  predicate Moves(last: real, price: real) {
    price != last && Abs(price - last) >= last / 10000.0
  }

  /** The prices that pass the filter. */
  function Accepted(prices: seq<real>): seq<real> {
    if prices == [] then []
    else
      var a := Accepted(prices[..|prices| - 1]);
      if a == [] || Moves(Last(a), Last(prices)) then a + [Last(prices)] else a
  }

  /** How far a stream of prices travels. */
  function Variation(prices: seq<real>): real {
    if |prices| < 2 then 0.0
    else Variation(prices[..|prices| - 1]) + Abs(Last(prices) - prices[|prices| - 2])
  }

  /** The least distance the accepted prices are bound to have travelled. */
  function MinMoves(accepted: seq<real>): real {
    if |accepted| < 2 then 0.0
    else MinMoves(accepted[..|accepted| - 1]) + accepted[|accepted| - 2] / 10000.0
  }

  ghost predicate Positive(prices: seq<real>) {
    forall i :: 0 <= i < |prices| ==> prices[i] > 0.0
  }

  /** The newest price is always within one basis point of the last accepted one, and accepted prices are
      at least one basis point apart. */
  lemma {:induction false} FilterBounds(prices: seq<real>)
    requires prices != [] && Positive(prices)
    ensures
      var a := Accepted(prices);
      && a != [] && a[0] == prices[0] && (forall p :: p in a ==> p in prices)
      && Abs(Last(prices) - Last(a)) < Last(a) / 10000.0
      && (forall i :: 0 < i < |a| ==> Abs(a[i] - a[i - 1]) >= a[i - 1] / 10000.0)
  {
    var init := prices[..|prices| - 1];
    if init != [] {
      FilterBounds(init);
      assert prices == init + [Last(prices)];
      var b := Accepted(init);
      assert Last(b) in prices;
    }
  }

  /** The moves the filter lets through add up to no more than the stream's own variation. */
  lemma {:induction false} MovesWithinVariation(prices: seq<real>)
    requires prices != [] && Positive(prices)
    ensures Accepted(prices) != []
    ensures MinMoves(Accepted(prices)) + Abs(Last(prices) - Last(Accepted(prices))) <= Variation(prices)
  {
    var init, p := prices[..|prices| - 1], Last(prices);
    if init != [] {
      MovesWithinVariation(init);
      var b := Accepted(init);
      if Moves(Last(b), p) {
        assert (b + [p])[..|b|] == b;
      }
    }
  }

  /** A stream that stays above `low` can be published at most once per low / 10000 it travels. */
  lemma AcceptedCount(prices: seq<real>, low: real)
    requires prices != [] && low > 0.0 && forall i :: 0 <= i < |prices| ==> prices[i] >= low
    ensures (|Accepted(prices)| - 1) as real * (low / 10000.0) <= Variation(prices)
  {
    hide Accepted, Variation, MinMoves, Moves;
    FilterBounds(prices);
    MovesWithinVariation(prices);
    var a := Accepted(prices);
    forall i | 0 <= i < |a| ensures a[i] >= low { assert a[i] in prices; }
    MinMovesAtLeast(a, low);
  }

  lemma {:induction false} MinMovesAtLeast(a: seq<real>, low: real)
    requires a != [] && low > 0.0 && forall i :: 0 <= i < |a| ==> a[i] >= low
    ensures (|a| - 1) as real * (low / 10000.0) <= MinMoves(a)
  {
    if |a| > 1 {
      var init := a[..|a| - 1];
      MinMovesAtLeast(init, low);
      assert (|a| - 1) as real == (|init| - 1) as real + 1.0;
      assert a[|a| - 2] / 10000.0 >= low / 10000.0;
    }
  }
}
