/** From pool events to USD answers: if every pool is in balance, every token is priced at its value. */
module FairFeeds {
  import opened Bytes
  import opened FairValue
  import QuoteGraph
  import Routes
  import GraphPricer
  import SqrtPrices
  import V2Pools
  import V2Connector
  import V3Connector
  import V4Once
  import Weights

  /** An event of one of the connectors and the clock when it is handled. */
  datatype Event =
    | Sync(pool: nat, payload: seq<byte>, now: int)
    | Swap(log: V4Once.SwapLog, now: int)
    | V3Swap(pool: nat, data: seq<byte>, fetch: V3Connector.Fetch, now: int)

  ghost predicate FairLog(value: Valuation, log: seq<QuoteGraph.Quote>) {
    forall q :: q in log ==> FairQuote(value, q)
  }

  /** Both sides of the V2 pool are worth the same. */
  ghost predicate FairSync(value: Valuation, meta: V2Pools.PoolConfig, payload: seq<byte>) {
    var o, t0, t1 := V2Pools.ComputeSnapshot(meta, payload), meta.token0, meta.token1;
    o.Priced? && t0.address != "" && t1.address != "" ==>
      && value(t0.address) > 0.0 && value(t1.address) > 0.0
      && Weights.InTokens(o.snapshot.reserve0, t0.decimals) * value(t0.address) ==
         Weights.InTokens(o.snapshot.reserve1, t1.decimals) * value(t1.address)
  }

  /** The V4 pool's square root is that of the ratio of its raw units' values. */
  ghost predicate FairSwap(value: Valuation, event: V4Once.SwapLog, pools: map<string, V4Once.PoolState>) {
    V4Once.Told(event, pools) ==>
      var t0, t1 := pools[event.poolID].meta.token0, pools[event.poolID].meta.token1;
      && value(t0.address) > 0.0 && value(t1.address) > 0.0
      && SqrtPrices.Raw(event.payload.value.sqrtPriceX96.value) *
         (value(t1.address) / SqrtPrices.V4Pow10(t1.decimals) as real) ==
         value(t0.address) / SqrtPrices.V4Pow10(t0.decimals) as real
  }

  lemma SyncQuoteIsFair(value: Valuation, meta: V2Pools.PoolConfig, payload: seq<byte>, weight: real, now: int)
    requires FairSync(value, meta, payload) && V2Pools.ComputeSnapshot(meta, payload).Priced?
    requires meta.token0.address != "" && meta.token1.address != ""
    requires V2Pools.ComputeSnapshot(meta, payload).snapshot.reserve0 > 0
    ensures
      var snap := V2Pools.ComputeSnapshot(meta, payload).snapshot;
      FairQuote(value, QuoteGraph.Quote(meta.token0.address, meta.token1.address,
        V2Pools.Ratio(snap.reserve1, meta.token1.decimals, snap.reserve0, meta.token0.decimals), weight, now))
  {
    hide V2Pools.Ratio, Pow, BigEndian;
    var snap := V2Pools.ComputeSnapshot(meta, payload).snapshot;
    V2Pools.PricerQuote(meta, payload);
    V2Pools.BalancedPoolIsFair(snap.reserve0, meta.token0.decimals, snap.reserve1, meta.token1.decimals,
                               value(meta.token0.address), value(meta.token1.address));
  }

  lemma SwapQuotesAreFair(value: Valuation, event: V4Once.SwapLog, pools: map<string, V4Once.PoolState>, now: int)
    requires FairSwap(value, event, pools) && V4Once.Told(event, pools)
    ensures
      var q := V4Once.QuoteOfSwap(event, pools, now);
      FairQuote(value, q) && FairQuote(value, q.Reversed())
  {
    hide SqrtPrices.Raw, SqrtPrices.V4Pow10, V4Once.SwapWeight;
    var meta, swap := pools[event.poolID].meta, event.payload.value;
    var s, q := swap.sqrtPriceX96.value, V4Once.QuoteOfSwap(event, pools, now);
    SqrtPrices.V4Succeeds(s, meta.token0.decimals, meta.token1.decimals);
    SqrtPrices.FairSqrtIsFairPrice(s, meta.token0.decimals, meta.token1.decimals,
                                   value(meta.token0.address), value(meta.token1.address));
    hide SqrtPrices.V4Prices;
    InverseIsFair(q.price, value(q.a), value(q.b));
  }

  /** The square root is that of the ratio of the raw units' values. */
  ghost predicate FairRoot(value: Valuation, s: nat, t0: V2Pools.TokenMeta, t1: V2Pools.TokenMeta) {
    && s > 0 && value(t0.address) > 0.0 && value(t1.address) > 0.0
    && SqrtPrices.Raw(s) * (value(t1.address) / SqrtPrices.V4Pow10(t1.decimals) as real) ==
       value(t0.address) / SqrtPrices.V4Pow10(t0.decimals) as real
  }

  /** The decimals V3 adjusts for, or need not. */
  predicate Adjusted(t0: V2Pools.TokenMeta, t1: V2Pools.TokenMeta) {
    (t0.decimals > 0 && t1.decimals > 0) || t0.decimals == t1.decimals
  }

  /** A V3 pool with a fair square root tells the pricer a fair quote exactly when the decimals are adjusted for. */
  lemma V3QuoteIsFairIff(value: Valuation, data: seq<byte>, t0: V2Pools.TokenMeta, t1: V2Pools.TokenMeta, now: int)
    requires FairRoot(value, V3Connector.SqrtOf(data), t0, t1)
    ensures FairQuote(value, V3Connector.QuoteFor(data, t0, t1, now)) <==> Adjusted(t0, t1)
  {
    hide SqrtPrices.Raw, SqrtPrices.V4Pow10, SqrtPrices.V3Prices, V3Connector.SqrtOf, V3Connector.WeightOf;
    SqrtPrices.V3FairIff(V3Connector.SqrtOf(data), t0.decimals, t1.decimals, value(t0.address), value(t1.address));
  }

  /** The swap is priced fairly once its pool's tokens are those of the chain. */
  ghost predicate FairV3(value: Valuation, data: seq<byte>, t0: V2Pools.TokenMeta, t1: V2Pools.TokenMeta) {
    V3Connector.SqrtOf(data) > 0 && V3Connector.Known(t0, t1) ==>
      FairRoot(value, V3Connector.SqrtOf(data), t0, t1) && Adjusted(t0, t1)
  }

  /** Metadata, where there is any, names the chain's tokens. */
  ghost predicate RightMeta(pool: V3Connector.PoolMeta, chain: (V2Pools.TokenMeta, V2Pools.TokenMeta))
    reads pool
  {
    pool.HasMeta() ==> (pool.token0, pool.token1) == chain
  }

  /** Handling swaps changes no pool's tokens. */
  ghost predicate SameMetas(a: map<string, V4Once.PoolState>, b: map<string, V4Once.PoolState>) {
    a.Keys == b.Keys && forall id :: id in a ==> a[id].meta == b[id].meta
  }

  lemma FairSwapStays(value: Valuation, event: V4Once.SwapLog, a: map<string, V4Once.PoolState>,
                      b: map<string, V4Once.PoolState>)
    requires FairSwap(value, event, a) && SameMetas(a, b)
    ensures FairSwap(value, event, b)
  {
    hide SqrtPrices.Raw, SqrtPrices.V4Pow10, SqrtPrices.V4Prices;
  }

  /** Every anchor is worth one dollar. */
  ghost predicate AnchorsWorthOne(value: Valuation, anchors: set<string>) {
    forall s :: s in anchors ==> value(s) == 1.0
  }

  method SyncFairly(ghost value: Valuation, pool: V2Connector.PoolState, payload: seq<byte>,
                    pricer: GraphPricer.GraphPricer, now: int)
    requires pool.Valid() && pricer.Valid() && now != QuoteGraph.ZERO_TIME
    requires FairLog(value, pricer.log) && FairSync(value, pool.meta, payload)
    modifies pool`lastPrice, pool`prices, pricer`edges, pricer`symbols, pricer`log
    ensures pool.Valid() && pricer.Valid() && FairLog(value, pricer.log)
  {
    hide FairQuote, V2Pools.ComputeSnapshot, FairSync, V2Pools.Ratio, Weights.LargerSide,
      GraphPricer.DisplaySymbol, GraphPricer.GraphPricer.Valid;
    ghost var meta := pool.meta;
    var published := pool.HandleSync(payload, pricer, now);
    if published.Some? && meta.token0.address != "" && meta.token1.address != "" {
      var snap := V2Pools.ComputeSnapshot(meta, payload).snapshot;
      var weight := Weights.LargerSide(snap.reserve0, meta.token0.decimals, snap.reserve1, meta.token1.decimals);
      SyncQuoteIsFair(value, meta, payload, weight, now);
    }
  }

  method SwapFairly(ghost value: Valuation, v4: V4Once.V4Connector, log: V4Once.SwapLog,
                    pricer: GraphPricer.GraphPricer, now: int)
    requires v4.Valid() && pricer.Valid() && now != QuoteGraph.ZERO_TIME
    requires FairLog(value, pricer.log) && FairSwap(value, log, v4.pools)
    modifies v4, pricer`edges, pricer`symbols, pricer`log
    ensures v4.Valid() && pricer.Valid() && FairLog(value, pricer.log) && SameMetas(old(v4.pools), v4.pools)
  {
    hide FairQuote, V4Once.QuoteOfSwap, V4Once.Told, V4Once.Stored, FairSwap;
    ghost var before := v4.pools;
    var done := v4.HandleSwapEvent(log, pricer, now);
    if V4Once.Told(log, before) {
      SwapQuotesAreFair(value, log, before, now);
    }
  }

  method V3SwapFairly(ghost value: Valuation, pool: V3Connector.PoolMeta,
                      ghost chain: (V2Pools.TokenMeta, V2Pools.TokenMeta), data: seq<byte>, fetch: V3Connector.Fetch,
                      pricer: GraphPricer.GraphPricer, now: int)
    requires pricer.Valid() && now != QuoteGraph.ZERO_TIME
    requires FairLog(value, pricer.log) && AnchorsWorthOne(value, pricer.stables)
    requires RightMeta(pool, chain) && FairV3(value, data, chain.0, chain.1)
    requires AnchorsWorthOne(value, V3Connector.AnchorsOf(chain.0, chain.1))
    requires fetch.Fetched? ==> (fetch.token0, fetch.token1) == chain
    modifies pool, pricer`edges, pricer`symbols, pricer`stables, pricer`log
    ensures pricer.Valid() && FairLog(value, pricer.log) && AnchorsWorthOne(value, pricer.stables)
    ensures RightMeta(pool, chain)
  {
    hide FairQuote, V3Connector.SqrtOf, V3Connector.QuoteFor, FairRoot, Adjusted, V3Connector.AnchorsOf;
    pool.HandleSwap(data, fetch, pricer, now);
    if V3Connector.SqrtOf(data) > 0 && pool.HasMeta() && V3Connector.Known(pool.token0, pool.token1) {
      V3QuoteIsFairIff(value, data, pool.token0, pool.token1, now);
    }
  }

  ghost predicate FairEvent(value: Valuation, pools: seq<V2Connector.PoolState>, v4: V4Once.V4Connector,
                            v3: seq<V3Connector.PoolMeta>, chain: seq<(V2Pools.TokenMeta, V2Pools.TokenMeta)>,
                            event: Event)
    requires |chain| == |v3|
    reads pools, v4
  {
    match event
    case Sync(i, payload, _) => i < |pools| && FairSync(value, pools[i].meta, payload)
    case Swap(log, _) => FairSwap(value, log, v4.pools)
    case V3Swap(i, data, fetch, _) =>
      && i < |v3| && FairV3(value, data, chain[i].0, chain[i].1)
      && (fetch.Fetched? ==> (fetch.token0, fetch.token1) == chain[i])
  }

  /** The pools' events are of times and pools there are, and every pool is in balance when it reports. `chain` lists
      the V3 pools' tokens on chain. */
  ghost predicate FairEvents(value: Valuation, pools: seq<V2Connector.PoolState>, v4: V4Once.V4Connector,
                             v3: seq<V3Connector.PoolMeta>, chain: seq<(V2Pools.TokenMeta, V2Pools.TokenMeta)>,
                             events: seq<Event>)
    reads pools, v4, v3
  {
    && |chain| == |v3|
    && (forall i :: 0 <= i < |v3| ==>
          RightMeta(v3[i], chain[i]) && AnchorsWorthOne(value, V3Connector.AnchorsOf(chain[i].0, chain[i].1)))
    && forall e :: e in events ==> e.now != QuoteGraph.ZERO_TIME && FairEvent(value, pools, v4, v3, chain, e)
  }

  /** Events of any pools, in any interleaving, then a query: a token that is found is priced exactly at its value. */
  method FeedAndResolve(ghost value: Valuation, pools: seq<V2Connector.PoolState>, v4: V4Once.V4Connector,
                        v3: seq<V3Connector.PoolMeta>, ghost chain: seq<(V2Pools.TokenMeta, V2Pools.TokenMeta)>,
                        pricer: GraphPricer.GraphPricer, events: seq<Event>, token: GraphPricer.TokenInfo, now: int)
    returns (res: Routes.Result, found: bool)
    requires pricer.Valid() && v4.Valid() && forall p :: p in pools ==> p.Valid()
    requires forall i, j :: 0 <= i < j < |v3| ==> v3[i] != v3[j]
    requires FairLog(value, pricer.log) && AnchorsWorthOne(value, pricer.stables)
    requires FairEvents(value, pools, v4, v3, chain, events)
    modifies pools, v4, v3, pricer`edges, pricer`symbols, pricer`stables, pricer`log
    ensures FairLog(value, pricer.log)
    ensures found ==> res.price == value(token.address)
  {
    hide FairLog, FairSwap, FairSync, FairV3, V3Connector.AnchorsOf, GraphPricer.GraphPricer.Valid;
    for n := 0 to |events|
      invariant pricer.Valid() && v4.Valid() && forall p :: p in pools ==> p.Valid() && p.meta == old(p.meta)
      invariant AnchorsWorthOne(value, pricer.stables)
      invariant SameMetas(old(v4.pools), v4.pools)
      invariant forall i :: 0 <= i < |v3| ==> RightMeta(v3[i], chain[i])
      invariant FairLog(value, pricer.log)
    {
      var e := events[n];
      assert e in events;
      match e
      case Sync(i, payload, t) => SyncFairly(value, pools[i], payload, pricer, t);
      case Swap(log, t) =>
        FairSwapStays(value, log, old(v4.pools), v4.pools);
        SwapFairly(value, v4, log, pricer, t);
      case V3Swap(i, data, fetch, t) => V3SwapFairly(value, v3[i], chain[i], data, fetch, pricer, t);
    }
    res, found := ResolveFairly(value, pricer, token, now);
  }

  method ResolveFairly(ghost value: Valuation, pricer: GraphPricer.GraphPricer, token: GraphPricer.TokenInfo, now: int)
    returns (res: Routes.Result, found: bool)
    requires pricer.Valid() && FairLog(value, pricer.log) && AnchorsWorthOne(value, pricer.stables)
    ensures found ==> res.price == value(token.address)
  {
    hide FairQuote;
    ghost var examined;
    res, found, examined := pricer.ResolveUSD(token, now);
    if found && token.address !in pricer.stables {
      AnswerIsFair(value, pricer.log, pricer.QueryFor(token.address), pricer.symbols, examined, res, found);
    }
  }
}
