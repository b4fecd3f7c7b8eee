/** Uniswap V2 pools: prices from reserves, token order, and the quote the pricer is given. */
module V2Pools {
  import opened Bytes
  import opened Options
  import opened Rationals
  import opened Weights

  datatype TokenMeta = TokenMeta(address: string, symbol: string, decimals: nat, isStable: bool, isWETH: bool)

  datatype PoolConfig = PoolConfig(
    address: string, pairName: string, token0: TokenMeta, token1: TokenMeta, baseIsToken0: bool,
    canonicalPair: string, hasStable: bool, hasWETH: bool, stableSymbol: string)
  {
    function Base(): TokenMeta {
      if baseIsToken0 then token0 else token1
    }

    function Quote(): TokenMeta {
      if baseIsToken0 then token1 else token0
    }
  }

  datatype Snapshot = Snapshot(price: real, reserve0: nat, reserve1: nat)

  /** A payload is rejected, worth nothing, or a snapshot. */
  datatype Outcome = Invalid | Empty | Priced(snapshot: Snapshot)

  function Ratio(num: nat, numDec: nat, den: nat, denDec: nat): real
    requires den > 0
  {
    var numerator := InTokens(num, numDec);
    var denominator := InTokens(den, denDec);
    numerator / denominator
  }

  /** The payload of a Sync event: two 32-byte reserves, then anything. */
  function ComputeSnapshot(pool: PoolConfig, payload: seq<byte>): Outcome {
    if |payload| < 64 then Invalid else
    var r0, r1 := BigEndian(payload[0..32]), BigEndian(payload[32..64]);
    if r0 == 0 || r1 == 0 then Empty
    else if pool.baseIsToken0 then
      Priced(Snapshot(Ratio(r1, pool.token1.decimals, r0, pool.token0.decimals), r0, r1))
    else
      Priced(Snapshot(Ratio(r0, pool.token0.decimals, r1, pool.token1.decimals), r0, r1))
  }

  function NormalizePair(pool: PoolConfig): string {
    if pool.canonicalPair != "" then pool.canonicalPair else pool.Base().symbol + pool.Quote().symbol
  }

  function SwapPoolTokens(pool: PoolConfig): PoolConfig {
    pool.(token0 := pool.token1, token1 := pool.token0, baseIsToken0 := !pool.baseIsToken0)
  }

  function FinalizePool(pool: PoolConfig): PoolConfig {
    var p := pool.(
      hasStable := pool.token0.isStable || pool.token1.isStable,
      hasWETH := pool.token0.isWETH || pool.token1.isWETH,
      stableSymbol := if pool.token0.isStable then pool.token0.symbol
                      else if pool.token1.isStable then pool.token1.symbol else "");
    if p.canonicalPair == "" then p.(canonicalPair := NormalizePair(p)) else p
  }

  /** The derived fields of a finalized pool: flags and stable symbol come from its tokens, a name given stays, a
      missing one is made of base and quote, nothing else changes, and finalizing again adds nothing. */
  lemma FinalizedPool(pool: PoolConfig)
    ensures
      var p := FinalizePool(pool);
      && (p.hasStable <==> exists t :: t in {p.token0, p.token1} && t.isStable)
      && (p.hasWETH <==> exists t :: t in {p.token0, p.token1} && t.isWETH)
      && (p.hasStable ==> exists t :: t in {p.token0, p.token1} && t.isStable && t.symbol == p.stableSymbol)
      && (!p.hasStable ==> p.stableSymbol == "")
      && p.canonicalPair == NormalizePair(pool)
      && (p.token0, p.token1, p.baseIsToken0, p.address, p.pairName) ==
         (pool.token0, pool.token1, pool.baseIsToken0, pool.address, pool.pairName)
      && FinalizePool(p) == p
  {
    var p := FinalizePool(pool);
    assert p.token0 in {p.token0, p.token1} && p.token1 in {p.token0, p.token1};
  }

  /** Token order is invisible in the derived fields, exactly unless two stables of different names are paired. */
  lemma FinalizeCommutesIff(pool: PoolConfig)
    ensures FinalizePool(SwapPoolTokens(pool)) == SwapPoolTokens(FinalizePool(pool)) <==>
      !(pool.token0.isStable && pool.token1.isStable && pool.token0.symbol != pool.token1.symbol)
  {
    SwapKeepsName(pool);
  }

  lemma SwapKeepsName(pool: PoolConfig)
    ensures FinalizePool(SwapPoolTokens(pool)).canonicalPair == FinalizePool(pool).canonicalPair
  {
  }

  /** The chain's answer for token0() and token1(), if the call succeeded. */
  type OnChain = Option<(string, string)>

  function EnsurePoolOrder(pool: PoolConfig, answer: OnChain): (PoolConfig, bool) {
    match answer
    case None => (pool, false)
    case Some((t0, t1)) =>
      if t0 == pool.token0.address && t1 == pool.token1.address then (pool, true)
      else if t0 == pool.token1.address && t1 == pool.token0.address then (FinalizePool(SwapPoolTokens(pool)), true)
      else (pool, false)
  }

  // ---------------------------------------------------------------- what a Sync event says

  lemma RatioTimesBase(num: nat, numDec: nat, den: nat, denDec: nat)
    requires num > 0 && den > 0
    ensures Ratio(num, numDec, den, denDec) > 0.0
    ensures Ratio(num, numDec, den, denDec) * InTokens(den, denDec) == InTokens(num, numDec)
  {
    TimesQuotient(InTokens(num, numDec), InTokens(den, denDec));
    hide InTokens;
  }

  /** A payload of two words, and anything after them, gives the reserves in this order. It is worth something exactly
      when both are positive, and then the price times the base's reserve is the quote's reserve. */
  lemma SnapshotOfWords(pool: PoolConfig, r0: nat, r1: nat, rest: seq<byte>)
    requires r0 < Modulus(32) && r1 < Modulus(32)
    ensures
      var o := ComputeSnapshot(pool, ToBigEndian(r0, 32) + ToBigEndian(r1, 32) + rest);
      var x0, x1 := InTokens(r0, pool.token0.decimals), InTokens(r1, pool.token1.decimals);
      && (o.Empty? <==> r0 == 0 || r1 == 0) && (o.Priced? <==> r0 > 0 && r1 > 0)
      && (o.Priced? ==>
            && o.snapshot.reserve0 == r0 && o.snapshot.reserve1 == r1 && o.snapshot.price > 0.0
            && (if pool.baseIsToken0 then o.snapshot.price * x0 == x1 else o.snapshot.price * x1 == x0))
  {
    hide Modulus, BigEndian, ToBigEndian, Pow, Ratio, InTokens;
    var payload := ToBigEndian(r0, 32) + ToBigEndian(r1, 32) + rest;
    assert payload[0..32] == ToBigEndian(r0, 32) && payload[32..64] == ToBigEndian(r1, 32);
    BigEndianRoundTrip(r0, 32);
    BigEndianRoundTrip(r1, 32);
    if r0 > 0 && r1 > 0 {
      RatioTimesBase(r1, pool.token1.decimals, r0, pool.token0.decimals);
      RatioTimesBase(r0, pool.token0.decimals, r1, pool.token1.decimals);
    }
  }

  /** A payload is rejected exactly when it is too short for two words; any other one is two words and a rest. */
  lemma PayloadIsWords(pool: PoolConfig, payload: seq<byte>)
    ensures ComputeSnapshot(pool, payload).Invalid? <==> |payload| < 64
    ensures |payload| >= 64 ==>
      exists r0, r1 :: 0 <= r0 < Modulus(32) && 0 <= r1 < Modulus(32) &&
        payload == ToBigEndian(r0, 32) + ToBigEndian(r1, 32) + payload[64..]
  {
    if |payload| >= 64 {
      var w0, w1 := payload[0..32], payload[32..64];
      BigEndianBound(w0);
      BigEndianBound(w1);
      BytesRoundTrip(w0);
      BytesRoundTrip(w1);
      hide *;
      assert payload == w0 + w1 + payload[64..];
    }
  }

  /** What is published of a pool in balance: a pair named base before quote, unless it has a name, and the price of
      the base in units of the quote. */
  lemma PublishedIsBasePrice(pool: PoolConfig, payload: seq<byte>, value0: real, value1: real)
    requires ComputeSnapshot(pool, payload).Priced? && value0 > 0.0 && value1 > 0.0
    requires
      var snap := ComputeSnapshot(pool, payload).snapshot;
      InTokens(snap.reserve0, pool.token0.decimals) * value0 == InTokens(snap.reserve1, pool.token1.decimals) * value1
    ensures
      var price := ComputeSnapshot(pool, payload).snapshot.price;
      if pool.baseIsToken0 then price * value1 == value0 else price * value0 == value1
    ensures NormalizePair(pool) ==
      if pool.canonicalPair != "" then pool.canonicalPair
      else if pool.baseIsToken0 then pool.token0.symbol + pool.token1.symbol
      else pool.token1.symbol + pool.token0.symbol
  {
    hide Ratio, BigEndian, Pow;
    var snap := ComputeSnapshot(pool, payload).snapshot;
    var r0, d0, r1, d1 := snap.reserve0, pool.token0.decimals, snap.reserve1, pool.token1.decimals;
    BalancedPoolIsFair(r0, d0, r1, d1, value0, value1);
    BalancedPoolIsFair(r1, d1, r0, d0, value1, value0);
  }

  // ---------------------------------------------------------------- token order does not matter

  /** The reserves exchanged. */
  function SwapReserves(payload: seq<byte>): seq<byte>
    requires |payload| >= 64
  {
    payload[32..64] + payload[0..32] + payload[64..]
  }

  lemma SwapTwice(pool: PoolConfig)
    ensures SwapPoolTokens(SwapPoolTokens(pool)) == pool
    ensures SwapPoolTokens(pool) != pool
  {
  }

  /** Swapping a pool's tokens together with its reserves keeps its price, base, quote and pair. */
  lemma SwapKeepsPrice(pool: PoolConfig, payload: seq<byte>)
    requires |payload| >= 64
    ensures
      var p := SwapPoolTokens(pool);
      var o, o' := ComputeSnapshot(pool, payload), ComputeSnapshot(p, SwapReserves(payload));
      && p.Base() == pool.Base() && p.Quote() == pool.Quote() && NormalizePair(p) == NormalizePair(pool)
      && (o.Priced? <==> o'.Priced?) && (o.Empty? <==> o'.Empty?)
      && (o.Priced? ==>
            o'.snapshot.price == o.snapshot.price
            && o'.snapshot.reserve0 == o.snapshot.reserve1 && o'.snapshot.reserve1 == o.snapshot.reserve0)
  {
    hide Ratio, BigEndian;
    assert SwapReserves(payload)[0..32] == payload[32..64] && SwapReserves(payload)[32..64] == payload[0..32];
  }

  /** A successful check leaves the on-chain order, keeps the base token and the pair, and needs no repeating. */
  lemma OrderEnsured(pool: PoolConfig, t0: string, t1: string)
    ensures
      var (p, ok) := EnsurePoolOrder(pool, Some((t0, t1)));
      && (ok <==> {t0, t1} == {pool.token0.address, pool.token1.address})
      && (ok ==>
            && p.token0.address == t0 && p.token1.address == t1
            && p.Base() == pool.Base() && p.Quote() == pool.Quote() && NormalizePair(p) == NormalizePair(pool)
            && EnsurePoolOrder(p, Some((t0, t1))) == (p, true))
      && (!ok ==> p == pool)
    ensures EnsurePoolOrder(pool, None) == (pool, false)
  {
    var a0, a1 := pool.token0.address, pool.token1.address;
    if {t0, t1} == {a0, a1} {
      assert t0 in {a0, a1} && t1 in {a0, a1} && a0 in {t0, t1} && a1 in {t0, t1};
    }
  }

  /** A pool with its order put right prices the true reserves as a pool built in the right order would. */
  lemma OrderedPoolPricesChainOrder(pool: PoolConfig, payload: seq<byte>)
    requires |payload| >= 64 && pool.token0.address != pool.token1.address
    ensures
      var p := EnsurePoolOrder(pool, Some((pool.token1.address, pool.token0.address))).0;
      var o, o' := ComputeSnapshot(pool, SwapReserves(payload)), ComputeSnapshot(p, payload);
      (o.Priced? <==> o'.Priced?) && (o.Priced? ==> o'.snapshot.price == o.snapshot.price)
  {
    hide Ratio, BigEndian;
    assert SwapReserves(payload)[0..32] == payload[32..64] && SwapReserves(payload)[32..64] == payload[0..32];
  }

  // ---------------------------------------------------------------- the quote for the pricer

  /** What updatePricing offers the pricer: token0 to token1 at this price. */
  function Price1Per0(pool: PoolConfig, snap: Snapshot): Option<real> {
    if pool.baseIsToken0 then Some(snap.price) else Invert(snap.price)
  }

  /** Whichever token is the base, the pricer is told how many token1 one token0 buys. */
  lemma PricerQuote(pool: PoolConfig, payload: seq<byte>)
    requires ComputeSnapshot(pool, payload).Priced?
    ensures
      var snap := ComputeSnapshot(pool, payload).snapshot;
      && snap.reserve0 > 0 && snap.reserve1 > 0
      && Price1Per0(pool, snap) == Some(Ratio(snap.reserve1, pool.token1.decimals, snap.reserve0, pool.token0.decimals))
      && Price1Per0(pool, snap).value > 0.0
  {
    hide BigEndian;
    var snap := ComputeSnapshot(pool, payload).snapshot;
    RatiosAreInverse(snap.reserve1, pool.token1.decimals, snap.reserve0, pool.token0.decimals);
  }

  lemma RatiosAreInverse(n: nat, nd: nat, d: nat, dd: nat)
    requires n > 0 && d > 0
    ensures Ratio(n, nd, d, dd) > 0.0 && Ratio(d, dd, n, nd) > 0.0
    ensures 1.0 / Ratio(d, dd, n, nd) == Ratio(n, nd, d, dd)
  {
  }

  /** A pool holding equal value on both sides quotes the ratio of its tokens' values. */
  lemma BalancedPoolIsFair(r0: nat, d0: nat, r1: nat, d1: nat, value0: real, value1: real)
    requires r0 > 0 && r1 > 0 && value0 > 0.0 && value1 > 0.0
    requires InTokens(r0, d0) * value0 == InTokens(r1, d1) * value1
    ensures Ratio(r1, d1, r0, d0) * value1 == value0
  {
    EqualSides(InTokens(r0, d0), InTokens(r1, d1), value0, value1);
  }

  lemma EqualSides(x: real, y: real, value0: real, value1: real)
    requires x > 0.0 && x * value0 == y * value1
    ensures y / x * value1 == value0
  {
  }
}
