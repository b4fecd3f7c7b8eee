/** The V4 connector's pool states, its "once" mode and what it tells the pricer. */
module V4Once {
  import opened Options
  import opened SqrtPrices
  import QuoteGraph
  import GraphPricer
  import V2Connector
  import V2Pools
  import Weights

  datatype PoolMeta = PoolMeta(token0: V2Pools.TokenMeta, token1: V2Pools.TokenMeta, baseIsToken0: bool)

  /** A pool with the metrics of its last stored swap. */
  datatype PoolState = PoolState(
    meta: PoolMeta, registered: bool, onceEmitted: bool,
    lastPrice: Option<real>, lastPrices: Option<Prices>, lastWeight: real, lastUpdate: int)

  /** What a swap log decodes to; a missing square root is None, a missing amount zero. */
  datatype Swap = Swap(sqrtPriceX96: Option<int>, amount0: int, amount1: int)

  /** A log event: no pool topic, or a pool and its payload, None when it is empty or does not decode. */
  datatype SwapLog = NoPool | ForPool(poolID: string, payload: Option<Swap>)

  datatype OnceStatus = OnceStatus(marked: bool, remaining: nat, completed: bool)

  /** The prices of a decoded swap; none for a missing or non-positive square root. */
  function PricesOf(meta: PoolMeta, swap: Swap): Option<Prices> {
    match swap.sqrtPriceX96
    case None => None
    case Some(s) => V4Prices(s, meta.token0.decimals, meta.token1.decimals)
  }

  /** Swapped amounts, in whole tokens, give the quote its weight. */
  function SwapWeight(meta: PoolMeta, swap: Swap): real {
    Weights.LargerSide(swap.amount0, meta.token0.decimals, swap.amount1, meta.token1.decimals)
  }

  /** A pool's state after a stored swap. */
  function Recorded(pool: PoolState, once: bool, prices: Prices, weight: real, ts: int): PoolState {
    pool.(registered := true, onceEmitted := once || pool.onceEmitted,
          lastPrice := Some(if pool.meta.baseIsToken0 then prices.price1Per0 else prices.price0Per1),
          lastPrices := Some(prices), lastWeight := weight, lastUpdate := ts)
  }

  /** The weight is the larger of both amounts in whole tokens and without their signs. */
  lemma SwapIsWeighed(meta: PoolMeta, swap: Swap)
    requires Weights.IsWord(swap.amount0) && Weights.IsWord(swap.amount1)
    ensures
      var w := SwapWeight(meta, swap);
      var x0 := Weights.InTokens(Weights.Abs(swap.amount0), meta.token0.decimals);
      var x1 := Weights.InTokens(Weights.Abs(swap.amount1), meta.token1.decimals);
      if swap.amount0 == 0 && swap.amount1 == 0 then w == Weights.MIN_WEIGHT
      else w >= x0 && w >= x1 && (w == x0 || w == x1)
  {
    hide Weights.LargerSide, Weights.InTokens, Weights.IsWord;
    Weights.LargerSideOfWords(swap.amount0, meta.token0.decimals, swap.amount1, meta.token1.decimals);
  }

  /** A stored swap keeps the pool's tokens and earlier mark; the last price is that of the base: at fair prices it
      turns the quote's value into the base's. */
  lemma RecordedIsBasePrice(pool: PoolState, once: bool, prices: Prices, weight: real, ts: int,
                            value0: real, value1: real)
    requires prices.price1Per0 * value1 == value0 && prices.price1Per0 * prices.price0Per1 == 1.0
    ensures
      var p := Recorded(pool, once, prices, weight, ts);
      && p.meta == pool.meta && p.registered && (p.onceEmitted <==> once || pool.onceEmitted)
      && p.lastPrices == Some(prices) && p.lastWeight == weight && p.lastUpdate == ts && p.lastPrice.Some?
      && (if pool.meta.baseIsToken0 then p.lastPrice.value * value1 == value0
          else p.lastPrice.value * value0 == value1)
  {
    Cancel(prices.price1Per0, prices.price0Per1, value1);
  }

  /** A pool is registered, priced and, in once mode, marked exactly when it has been seen. */
  ghost predicate PoolsOk(once: bool, pools: map<string, PoolState>, seen: set<string>) {
    && seen <= pools.Keys
    && forall id :: id in pools ==>
      && (pools[id].registered <==> id in seen) && (pools[id].lastPrice.Some? <==> id in seen)
      && (pools[id].onceEmitted <==> once && id in seen)
  }

  lemma RecordKeepsPools(once: bool, pools: map<string, PoolState>, seen: set<string>, id: string,
                         prices: Prices, weight: real, ts: int)
    requires PoolsOk(once, pools, seen) && id in pools
    ensures PoolsOk(once, pools[id := Recorded(pools[id], once, prices, weight, ts)], seen + {id})
    ensures pools[id].onceEmitted <==> once && id in seen
  {
  }

  /** Completion is reported once, when every pool has been seen. */
  ghost function Completions(once: bool, all: set<string>, seen: set<string>): nat {
    if once && seen == all && seen != {} then 1 else 0
  }

  lemma CompletionsStep(once: bool, all: set<string>, seen: set<string>, id: string)
    requires seen <= all && id in all
    ensures Completions(once, all, seen + {id}) ==
      Completions(once, all, seen) + if once && id !in seen && seen + {id} == all then 1 else 0
  {
  }

  /** Two known and distinct tokens. */
  predicate Quotable(meta: PoolMeta) {
    meta.token0.address != "" && meta.token1.address != "" && meta.token0.address != meta.token1.address
  }

  /** Both tokens are known to the pricer. */
  predicate Known(meta: PoolMeta) {
    meta.token0.address != "" && meta.token1.address != ""
  }

  /** The quote of a stored swap; its reverse is told as well. */
  function QuoteFor(meta: PoolMeta, prices: Prices, weight: real, ts: int): (q: QuoteGraph.Quote)
    ensures prices.price1Per0 > 0.0 ==> q.price > 0.0
    ensures 0.0 < weight <= QuoteGraph.MAX_FLOAT64 ==> q.weight == weight
  {
    QuoteGraph.Quote(meta.token0.address, meta.token1.address, prices.price1Per0,
                     if 0.0 < weight <= QuoteGraph.MAX_FLOAT64 then weight else Weights.MIN_WEIGHT, ts)
  }

  class V4Connector {
    const once: bool
    var pools: map<string, PoolState>
    var unknownPoolEvents: nat
    var successUpdates: nat

    /** Pools with a stored swap. */
    ghost var seen: set<string>
    /** How often the connector has reported completion. */
    ghost var completions: nat

    ghost predicate Valid()
      reads this
    {
      && PoolsOk(once, pools, seen)
      && completions == Completions(once, pools.Keys, seen)
    }

    constructor (once: bool, metas: map<string, PoolMeta>)
      ensures Valid() && this.once == once && pools.Keys == metas.Keys && seen == {} && completions == 0
    {
      this.once := once;
      pools := map id | id in metas :: PoolState(metas[id], false, false, None, None, 0.0, QuoteGraph.ZERO_TIME);
      unknownPoolEvents, successUpdates, seen, completions := 0, 0, {}, 0;
    }

    /** Stores a swap's metrics and, in once mode, says how many pools are still to be seen. */
    method StoreSwapMetrics(poolID: string, prices: Prices, weight: real, ts: int)
      returns (status: OnceStatus, ok: bool)
      requires Valid()
      modifies `pools, `seen, `completions
      ensures Valid() && ok == (poolID in old(pools)) && pools.Keys == old(pools).Keys
      ensures seen == if ok then old(seen) + {poolID} else old(seen)
      ensures !ok ==> pools == old(pools) && status == OnceStatus(false, 0, false)
      ensures ok ==> pools == old(pools)[poolID := Recorded(old(pools)[poolID], once, prices, weight, ts)]
      // marked on the first swap of a pool in once mode, and then `remaining` counts the pools without one
      ensures status.marked <==> once && ok && poolID !in old(seen)
      ensures status.marked ==> status.remaining == |pools.Keys - seen|
      ensures status.completed <==> status.marked && seen == pools.Keys
      ensures completions == old(completions) + if status.completed then 1 else 0
    {
      hide Completions, PoolsOk, Recorded;
      status := OnceStatus(false, 0, false);
      if poolID !in pools {
        return status, false;
      }
      var pool, first := Record(pools[poolID], prices, weight, ts);
      RecordKeepsPools(once, pools, seen, poolID, prices, weight, ts);
      SeenArePools(once, pools, seen);
      CompletionsStep(once, pools.Keys, seen, poolID);
      seen := seen + {poolID};
      pools := pools[poolID := pool];
      assert pools.Keys == old(pools).Keys;
      if first {
        var remaining := CountUnmarked(pools);
        UnmarkedAreUnseen(once, pools, seen);
        status := OnceStatus(true, remaining, remaining == 0);
        if status.completed {
          completions := completions + 1;
        }
      }
      ok := true;
    }

    /** The pool's fields after a swap, and whether the swap marks it. */
    method Record(state: PoolState, prices: Prices, weight: real, ts: int) returns (pool: PoolState, first: bool)
      ensures pool == Recorded(state, once, prices, weight, ts)
      ensures first <==> once && !state.onceEmitted
    {
      pool := state.(lastPrice := Some(if state.meta.baseIsToken0 then prices.price1Per0 else prices.price0Per1));
      pool := pool.(lastPrices := Some(prices), lastWeight := weight, lastUpdate := ts);
      if !pool.registered {
        pool := pool.(registered := true);
      }
      first := once && !pool.onceEmitted;
      if first {
        pool := pool.(onceEmitted := true);
      }
    }

    /** Handles one swap log. True means every configured pool has now been seen and the run is over. */
    method HandleSwapEvent(event: SwapLog, pricer: GraphPricer.GraphPricer, now: int) returns (onceComplete: bool)
      requires Valid() && pricer.Valid() && now != QuoteGraph.ZERO_TIME
      modifies this, pricer`edges, pricer`symbols, pricer`log
      ensures Valid() && pricer.Valid() && pools.Keys == old(pools).Keys
      ensures Stored(event, old(pools)) ==>
        var id, pool, swap := event.poolID, old(pools)[event.poolID], event.payload.value;
        && seen == old(seen) + {id}
        && pools == old(pools)[
             id := Recorded(pool, once, PricesOf(pool.meta, swap).value, SwapWeight(pool.meta, swap), now)]
      ensures !Stored(event, old(pools)) ==> seen == old(seen) && pools == old(pools)
      // the pricer is told the swap's quote and its reverse, and nothing else
      ensures !Told(event, old(pools)) ==> pricer.log == old(pricer.log) && pricer.edges == old(pricer.edges)
      ensures Told(event, old(pools)) ==>
        var q := QuoteOfSwap(event, old(pools), now);
        && pricer.log == old(pricer.log) + [q, q.Reversed()]
        && pricer.edges == QuoteGraph.Apply(QuoteGraph.Apply(old(pricer.edges), q), q.Reversed())
      // completion is reported by the one event that makes the seen pools all the pools
      ensures onceComplete <==> once && seen != old(seen) && seen == pools.Keys
      ensures completions == old(completions) + if onceComplete then 1 else 0
      ensures unknownPoolEvents ==
        old(unknownPoolEvents) + if event.ForPool? && event.poolID !in old(pools) then 1 else 0
    {
      hide SwapWeight, PricesOf, PoolsOk, Completions, Recorded, QuoteGraph.Apply, GraphPricer.GraphPricer.Valid;
      if event.NoPool? {
        return false;
      }
      var poolID := event.poolID;
      if poolID !in pools {
        unknownPoolEvents := unknownPoolEvents + 1;
        return false;
      }
      var meta := pools[poolID].meta;
      if event.payload.None? {
        return false;
      }
      var swap := event.payload.value;
      var prices := PricesOf(meta, swap);
      if prices.None? {
        return false;
      }
      PricesAreReciprocal(meta, swap);
      var weight := SwapWeight(meta, swap);
      var status, ok := StoreSwapMetrics(poolID, prices.value, weight, now);
      UpdatePricing(meta, prices.value, weight, now, pricer);
      return once && status.marked && status.completed;
    }

    /** Tells the pricer both directions, the second one in reverse. */
    method UpdatePricing(meta: PoolMeta, prices: Prices, weight: real, ts: int, pricer: GraphPricer.GraphPricer)
      requires pricer.Valid() && ts != QuoteGraph.ZERO_TIME
      requires prices.price1Per0 > 0.0 && prices.price1Per0 * prices.price0Per1 == 1.0
      modifies `successUpdates, pricer`edges, pricer`symbols, pricer`log
      ensures pricer.Valid()
      ensures !Known(meta) ==> pricer.log == old(pricer.log) && pricer.edges == old(pricer.edges)
      ensures Known(meta) ==>
        var a, b, q := meta.token0.address, meta.token1.address, QuoteFor(meta, prices, weight, ts);
        && pricer.log == old(pricer.log) + [q, q.Reversed()]
        && q == QuoteGraph.Quote(a, b, prices.price1Per0, q.weight, ts)
        && q.Reversed() == QuoteGraph.Quote(b, a, prices.price0Per1, q.weight, ts)
        && pricer.edges == QuoteGraph.Apply(QuoteGraph.Apply(old(pricer.edges), q), q.Reversed())
      // between distinct tokens of a reciprocal graph the reversed update changes no edge
      ensures Quotable(meta) && QuoteGraph.Reciprocal(old(pricer.edges)) ==>
        pricer.edges == QuoteGraph.Apply(old(pricer.edges), QuoteFor(meta, prices, weight, ts))
      ensures successUpdates == old(successUpdates) + 1
    {
      hide QuoteGraph.Apply, GraphPricer.DisplaySymbol, GraphPricer.GraphPricer.Valid, QuoteGraph.Reciprocal;
      var weight := weight;
      if weight <= 0.0 || weight > QuoteGraph.MAX_FLOAT64 {
        weight := Weights.MIN_WEIGHT;
      }
      var info0, info1 := V2Connector.InfoOf(meta.token0), V2Connector.InfoOf(meta.token1);
      ghost var q := QuoteGraph.Quote(info0.address, info1.address, prices.price1Per0, weight, ts);
      if q.a != q.b && QuoteGraph.Reciprocal(pricer.edges) {
        QuoteGraph.ReversedQuoteIsIdle(pricer.edges, q);
      }
      InverseIsQuotient(prices);
      pricer.UpdatePair(info0, info1, prices.price1Per0, weight, ts, ts);
      pricer.UpdatePair(info1, info0, prices.price0Per1, weight, ts, ts);
      successUpdates := successUpdates + 1;
    }
  }

  lemma PricesAreReciprocal(meta: PoolMeta, swap: Swap)
    requires PricesOf(meta, swap).Some?
    ensures PricesOf(meta, swap).value.price1Per0 > 0.0
    ensures PricesOf(meta, swap).value.price1Per0 * PricesOf(meta, swap).value.price0Per1 == 1.0
  {
  }

  lemma SeenArePools(once: bool, pools: map<string, PoolState>, seen: set<string>)
    requires PoolsOk(once, pools, seen)
    ensures seen <= pools.Keys
  {
  }

  lemma UnmarkedAreUnseen(once: bool, pools: map<string, PoolState>, seen: set<string>)
    requires once && PoolsOk(once, pools, seen)
    ensures |set id | id in pools && !pools[id].onceEmitted| == |pools.Keys - seen|
    ensures |pools.Keys - seen| == 0 <==> seen == pools.Keys
  {
    assert (set id | id in pools && !pools[id].onceEmitted) == pools.Keys - seen;
    if pools.Keys - seen == {} {
      forall id | id in pools.Keys ensures id in seen { assert id !in pools.Keys - seen; }
    }
  }

  lemma InverseIsQuotient(p: Prices)
    requires p.price1Per0 > 0.0 && p.price1Per0 * p.price0Per1 == 1.0
    ensures p.price0Per1 == 1.0 / p.price1Per0 > 0.0
  {
  }

  /** The event reaches a configured pool with a decodable, positive price. */
  predicate Stored(event: SwapLog, pools: map<string, PoolState>) {
    && event.ForPool? && event.poolID in pools && event.payload.Some?
    && PricesOf(pools[event.poolID].meta, event.payload.value).Some?
  }

  /** The swap is stored and its tokens are known. */
  predicate Told(event: SwapLog, pools: map<string, PoolState>) {
    Stored(event, pools) && Known(pools[event.poolID].meta)
  }

  /** Exactly the swaps of configured pools with a positive square root are stored. */
  lemma StoredIff(event: SwapLog, pools: map<string, PoolState>)
    ensures Stored(event, pools) <==>
      && event.ForPool? && event.poolID in pools && event.payload.Some?
      && event.payload.value.sqrtPriceX96.Some? && event.payload.value.sqrtPriceX96.value > 0
  {
    hide V4Prices;
    if event.ForPool? && event.poolID in pools && event.payload.Some? && event.payload.value.sqrtPriceX96.Some? {
      var meta := pools[event.poolID].meta;
      V4Succeeds(event.payload.value.sqrtPriceX96.value, meta.token0.decimals, meta.token1.decimals);
    }
  }

  /** What the pricer is told of a stored swap. */
  function QuoteOfSwap(event: SwapLog, pools: map<string, PoolState>, now: int): (q: QuoteGraph.Quote)
    requires Stored(event, pools)
    ensures q.price > 0.0
  {
    var meta, swap := pools[event.poolID].meta, event.payload.value;
    PricesAreReciprocal(meta, swap);
    QuoteFor(meta, PricesOf(meta, swap).value, SwapWeight(meta, swap), now)
  }

  /** The counting loop over all pools. */
  method CountUnmarked(pools: map<string, PoolState>) returns (n: nat)
    ensures n == |set id | id in pools && !pools[id].onceEmitted|
  {
    n := 0;
    var rest := pools.Keys;
    ghost var counted: set<string> := {};
    while rest != {}
      invariant rest <= pools.Keys && n == |counted| && counted !! rest
      invariant counted == set id | id in pools && id !in rest && !pools[id].onceEmitted
    {
      var other :| other in rest;
      rest := rest - {other};
      if !pools[other].onceEmitted {
        n := n + 1;
        counted := counted + {other};
      }
    }
    assert counted == set id | id in pools && !pools[id].onceEmitted;
  }
}
