/** The V3 connector's pools: metadata fetched on the first swap, prices from the square root, the pricer's quote. */
module V3Connector {
  import opened Bytes
  import opened Options
  import opened SignedWords
  import opened SqrtPrices
  import opened V2Pools
  import opened Weights
  import QuoteGraph
  import GraphPricer
  import V2Connector

  /** What becomes of the attempt to fetch a pool's metadata: no slot is free, a call fails, or its two tokens. */
  datatype Fetch = NoSlot | Failed | Fetched(token0: TokenMeta, token1: TokenMeta)

  /** The unsigned square root of a swap's payload of five 32-byte words; zero for a payload that is too short. */
  function SqrtOf(data: seq<byte>): (s: nat)
    ensures |data| < 160 ==> s == 0
  {
    if |data| < 160 then 0 else BigEndian(data[64..96])
  }

  function WeightOf(data: seq<byte>, token0: TokenMeta, token1: TokenMeta): real
    requires |data| >= 160
  {
    LargerSide(DecodeSigned(data[0..32]), token0.decimals, DecodeSigned(data[32..64]), token1.decimals)
  }

  /** The anchors among two tokens. */
  function AnchorsOf(token0: TokenMeta, token1: TokenMeta): (anchors: set<string>)
    ensures forall a :: a in anchors <==> a != "" && exists t :: t in {token0, token1} && t.isStable && t.address == a
  {
    assert token0 in {token0, token1} && token1 in {token0, token1};
    (if token0.isStable && token0.address != "" then {token0.address} else {}) +
    (if token1.isStable && token1.address != "" then {token1.address} else {})
  }

  predicate Known(token0: TokenMeta, token1: TokenMeta) {
    token0.address != "" && token1.address != ""
  }

  /** The quote of a swap between two tokens with metadata. */
  function QuoteFor(data: seq<byte>, token0: TokenMeta, token1: TokenMeta, now: int): (q: QuoteGraph.Quote)
    requires SqrtOf(data) > 0
    ensures q.price > 0.0 && q.a == token0.address && q.b == token1.address
  {
    V3Succeeds(SqrtOf(data), token0.decimals, token1.decimals, true);
    QuoteGraph.Quote(token0.address, token1.address,
                     V3Prices(SqrtOf(data), token0.decimals, token1.decimals, true).value.price1Per0,
                     WeightOf(data, token0, token1), now)
  }

  /** Which word is which: the third one of the payload is the square root that is priced, adjusted for decimals if
      both are positive; the first two are the amounts whose larger one is the weight. */
  lemma QuoteOfWords(amount0: int, amount1: int, s: nat, liquidity: nat, tick: int, rest: seq<byte>,
                     token0: TokenMeta, token1: TokenMeta, now: int)
    requires InRange(amount0, 32) && InRange(amount1, 32) && InRange(tick, 32)
    requires s < Modulus(32) && liquidity < Modulus(32)
    ensures
      var data := EncodeSigned(amount0, 32) + EncodeSigned(amount1, 32) + ToBigEndian(s, 32) +
                  ToBigEndian(liquidity, 32) + EncodeSigned(tick, 32) + rest;
      && SqrtOf(data) == s
      && (s > 0 ==>
            var q := QuoteFor(data, token0, token1, now);
            var adjusted := token0.decimals > 0 && token1.decimals > 0;
            var x0 := InTokens(Weights.Abs(amount0), token0.decimals);
            var x1 := InTokens(Weights.Abs(amount1), token1.decimals);
            && q.ts == now
            && q.price == (if adjusted then Raw(s) * V3DecimalAdjust(token0.decimals, token1.decimals) else Raw(s))
            && (if amount0 == 0 && amount1 == 0 then q.weight == MIN_WEIGHT
                else q.weight >= x0 && q.weight >= x1 && (q.weight == x0 || q.weight == x1)))
  {
    hide *;
    var w0, w1, w2 := EncodeSigned(amount0, 32), EncodeSigned(amount1, 32), ToBigEndian(s, 32);
    var w3, w4 := ToBigEndian(liquidity, 32), EncodeSigned(tick, 32);
    assert w0 + w1 + w2 + (w3 + w4 + rest) == w0 + w1 + w2 + w3 + w4 + rest;
    Words(w0, w1, w2, w3 + w4 + rest, token0, token1, now);
    BigEndianRoundTrip(s, 32);
    if s > 0 {
      DecodeEncoded(amount0, 32);
      DecodeEncoded(amount1, 32);
      InRangeIsWord(amount0);
      InRangeIsWord(amount1);
      LargerSideOfWords(amount0, token0.decimals, amount1, token1.decimals);
    }
  }

  lemma InRangeIsWord(amount: int)
    requires InRange(amount, 32)
    ensures IsWord(amount)
  {
    HalfModulus(32);
    hide Modulus, Half;
  }

  lemma Words(w0: seq<byte>, w1: seq<byte>, w2: seq<byte>, rest: seq<byte>, token0: TokenMeta, token1: TokenMeta,
              now: int)
    requires |w0| == |w1| == |w2| == 32 && |rest| >= 64
    ensures
      var data, dec0, dec1 := w0 + w1 + w2 + rest, token0.decimals, token1.decimals;
      && SqrtOf(data) == BigEndian(w2)
      && (SqrtOf(data) > 0 ==>
            var q := QuoteFor(data, token0, token1, now);
            && q.ts == now && q.weight == LargerSide(DecodeSigned(w0), dec0, DecodeSigned(w1), dec1)
            && q.price == if dec0 > 0 && dec1 > 0 then Raw(SqrtOf(data)) * V3DecimalAdjust(dec0, dec1)
                          else Raw(SqrtOf(data)))
  {
    hide BigEndian, LargerSide, DecodeSigned, V3DecimalAdjust, Raw, V3Prices;
    var data := w0 + w1 + w2 + rest;
    assert data[0..32] == w0 && data[32..64] == w1 && data[64..96] == w2;
    if SqrtOf(data) > 0 {
      V3Succeeds(SqrtOf(data), token0.decimals, token1.decimals, true);
    }
  }

  class PoolMeta {
    var token0: TokenMeta
    var token1: TokenMeta
    var hasJSONMeta: bool
    var loaded: bool
    var verified: bool
    var registered: bool

    predicate HasMeta()
      reads this
    {
      loaded || hasJSONMeta
    }

    constructor (token0: TokenMeta, token1: TokenMeta, hasJSONMeta: bool)
      ensures this.token0 == token0 && this.token1 == token1 && this.hasJSONMeta == hasJSONMeta
      ensures !loaded && !verified && !registered
    {
      this.token0, this.token1, this.hasJSONMeta := token0, token1, hasJSONMeta;
      loaded, verified, registered := false, false, false;
    }

    /** Handles one swap: gets the metadata if it is still missing, registers the tokens once, and tells the pricer the
        price, adjusted for decimals if both are positive. */
    method HandleSwap(data: seq<byte>, fetch: Fetch, pricer: GraphPricer.GraphPricer, now: int)
      requires pricer.Valid() && now != QuoteGraph.ZERO_TIME
      modifies this, pricer`edges, pricer`symbols, pricer`stables, pricer`log
      ensures pricer.Valid()
      // a payload that is too short, or a zero square root, changes nothing
      ensures SqrtOf(data) == 0 ==>
        && unchanged(this) && pricer.log == old(pricer.log) && pricer.edges == old(pricer.edges)
        && pricer.stables == old(pricer.stables)
      ensures SqrtOf(data) > 0 ==>
        var fetched := !old(verified) && fetch.Fetched?;
        && token0 == (if fetched then fetch.token0 else old(token0))
        && token1 == (if fetched then fetch.token1 else old(token1))
        && verified == (old(verified) || fetched) && loaded == (old(loaded) || fetched)
        && hasJSONMeta == (old(hasJSONMeta) || (fetched && token0.decimals > 0 && token1.decimals > 0))
        && registered == (old(registered) || loaded || hasJSONMeta)
      ensures pricer.stables == old(pricer.stables) +
        if SqrtOf(data) > 0 && (loaded || hasJSONMeta) && (!old(registered) || (!old(verified) && fetch.Fetched?))
        then AnchorsOf(token0, token1) else {}
      // the pricer is told one quote, and only of tokens with metadata
      ensures SqrtOf(data) > 0 && (loaded || hasJSONMeta) && token0.address != "" && token1.address != "" ==>
        var q := QuoteFor(data, token0, token1, now);
        pricer.log == old(pricer.log) + [q] && pricer.edges == QuoteGraph.Apply(old(pricer.edges), q)
      ensures !(SqrtOf(data) > 0 && (loaded || hasJSONMeta) && token0.address != "" && token1.address != "") ==>
        pricer.log == old(pricer.log) && pricer.edges == old(pricer.edges)
    {
      hide QuoteGraph.Apply, GraphPricer.GraphPricer.Valid, BigEndian, WeightOf, AnchorsOf, QuoteFor;
      if |data| < 160 {
        return;
      }
      var sqrtPriceX96 := BigEndian(data[64..96]);
      var raw := V3PriceFromSqrt(sqrtPriceX96);
      if raw.None? {
        return;
      }
      AcquireMeta(fetch, pricer);
      UpdatePricing(data, raw.value, pricer, now);
    }

    /** Fetches and registers what is still missing. */
    method AcquireMeta(fetch: Fetch, pricer: GraphPricer.GraphPricer)
      requires pricer.Valid()
      modifies this, pricer`symbols, pricer`stables
      ensures pricer.Valid()
      ensures (token0, token1) ==
        if !old(verified) && fetch.Fetched? then (fetch.token0, fetch.token1) else (old(token0), old(token1))
      ensures verified == (old(verified) || fetch.Fetched?)
      ensures loaded == (old(loaded) || (!old(verified) && fetch.Fetched?))
      ensures hasJSONMeta ==
        (old(hasJSONMeta) ||
         (!old(verified) && fetch.Fetched? && token0.decimals > 0 && token1.decimals > 0))
      ensures registered == (old(registered) || HasMeta())
      ensures pricer.stables == old(pricer.stables) +
        if HasMeta() && (!old(registered) || (!old(verified) && fetch.Fetched?)) then AnchorsOf(token0, token1) else {}
    {
      hide AnchorsOf, GraphPricer.GraphPricer.Valid;
      if !verified {
        match fetch
        case NoSlot =>
        case Failed =>
        case Fetched(t0, t1) =>
          EnsurePoolMeta(t0, t1, pricer);
          loaded := true;
          verified := true;
      }
      if (hasJSONMeta || loaded) && !registered {
        RegisterTokens(pricer);
        registered := true;
      }
    }

    /** The price of a swap and what the pricer is told of it. */
    method UpdatePricing(data: seq<byte>, raw: real, pricer: GraphPricer.GraphPricer, now: int)
      requires pricer.Valid() && now != QuoteGraph.ZERO_TIME && SqrtOf(data) > 0
      requires V3PriceFromSqrt(SqrtOf(data)) == Some(raw)
      modifies pricer`edges, pricer`symbols, pricer`log
      ensures pricer.Valid()
      ensures HasMeta() && Known(token0, token1) ==>
        var q := QuoteFor(data, token0, token1, now);
        pricer.log == old(pricer.log) + [q] && pricer.edges == QuoteGraph.Apply(old(pricer.edges), q)
      ensures !(HasMeta() && Known(token0, token1)) ==>
        pricer.log == old(pricer.log) && pricer.edges == old(pricer.edges)
    {
      hide QuoteGraph.Apply, GraphPricer.DisplaySymbol, GraphPricer.GraphPricer.Valid, BigEndian, DecodeSigned,
        LargerSide, V3DecimalAdjust, Raw;
      V3Succeeds(SqrtOf(data), token0.decimals, token1.decimals, HasMeta());
      var price1Per0 := raw;
      if HasMeta() && token0.decimals > 0 && token1.decimals > 0 {
        price1Per0 := raw * V3DecimalAdjust(token0.decimals, token1.decimals);
      }
      if !HasMeta() {
        return;
      }
      var weight := LargerSide(DecodeSigned(data[0..32]), token0.decimals, DecodeSigned(data[32..64]), token1.decimals);
      ghost var q := QuoteFor(data, token0, token1, now);
      assert q.price == price1Per0 && q.weight == weight;
      pricer.UpdatePair(V2Connector.InfoOf(token0), V2Connector.InfoOf(token1), price1Per0, weight, now, now);
    }

    method EnsurePoolMeta(t0: TokenMeta, t1: TokenMeta, pricer: GraphPricer.GraphPricer)
      requires pricer.Valid()
      modifies this`token0, this`token1, this`hasJSONMeta, pricer`symbols, pricer`stables
      ensures pricer.Valid() && pricer.stables == old(pricer.stables) + AnchorsOf(t0, t1)
      ensures token0 == t0 && token1 == t1
      ensures hasJSONMeta == (old(hasJSONMeta) || (t0.decimals > 0 && t1.decimals > 0))
    {
      hide GraphPricer.DisplaySymbol;
      token0, token1 := t0, t1;
      if t0.decimals > 0 && t1.decimals > 0 {
        hasJSONMeta := true;
      }
      RegisterTokens(pricer);
    }

    method RegisterTokens(pricer: GraphPricer.GraphPricer)
      requires pricer.Valid()
      modifies pricer`symbols, pricer`stables
      ensures pricer.Valid() && pricer.stables == old(pricer.stables) + AnchorsOf(token0, token1)
    {
      hide GraphPricer.DisplaySymbol, GraphPricer.GraphPricer.Valid;
      RegisterToken(token0, pricer);
      RegisterToken(token1, pricer);
    }
  }

  method RegisterToken(token: TokenMeta, pricer: GraphPricer.GraphPricer)
    requires pricer.Valid()
    modifies pricer`symbols, pricer`stables
    ensures pricer.Valid()
    ensures pricer.stables ==
      old(pricer.stables) + if token.isStable && token.address != "" then {token.address} else {}
  {
    hide GraphPricer.DisplaySymbol;
    if token.address == "" {
      return;
    }
    pricer.RegisterToken(V2Connector.InfoOf(token));
    if token.isStable {
      pricer.RegisterStable(V2Connector.InfoOf(token));
    }
  }
}
