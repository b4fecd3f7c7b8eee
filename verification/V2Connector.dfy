/** The V2 connector's per-pool state, updated in place as pools are checked and Sync events arrive. */
module V2Connector {
  import opened Bytes
  import opened Options
  import opened Sequences
  import opened V2Pools
  import opened Weights
  import QuoteGraph
  import GraphPricer
  import PriceFilter

  function InfoOf(t: TokenMeta): GraphPricer.TokenInfo {
    GraphPricer.TokenInfo(t.address, t.symbol, t.decimals)
  }

  class PoolState {
    var meta: PoolConfig
    var lastPrice: Option<real>
    /** Every price computed for the pool, published or not. */
    ghost var prices: seq<real>

    ghost predicate Valid()
      reads this
    {
      && PriceFilter.Positive(prices)
      && (prices == [] <==> lastPrice.None?) && (prices == [] <==> PriceFilter.Accepted(prices) == [])
      && (prices != [] ==> lastPrice == Some(Last(PriceFilter.Accepted(prices))))
    }

    constructor (meta: PoolConfig)
      ensures Valid() && this.meta == meta && prices == []
    {
      this.meta, lastPrice, prices := meta, None, [];
    }

    method SwapPoolTokens()
      modifies this`meta
      ensures meta == V2Pools.SwapPoolTokens(old(meta))
    {
      var token0, token1 := meta.token1, meta.token0;
      meta := meta.(token0 := token0, token1 := token1);
      meta := meta.(baseIsToken0 := !meta.baseIsToken0);
    }

    method FinalizePool()
      modifies this`meta
      ensures meta == V2Pools.FinalizePool(old(meta))
    {
      meta := meta.(hasStable := meta.token0.isStable || meta.token1.isStable);
      meta := meta.(hasWETH := meta.token0.isWETH || meta.token1.isWETH);
      if meta.token0.isStable {
        meta := meta.(stableSymbol := meta.token0.symbol);
      } else if meta.token1.isStable {
        meta := meta.(stableSymbol := meta.token1.symbol);
      } else {
        meta := meta.(stableSymbol := "");
      }
      if meta.canonicalPair == "" {
        meta := meta.(canonicalPair := NormalizePair(meta));
      }
    }

    method EnsurePoolOrder(answer: OnChain) returns (ok: bool)
      modifies this`meta
      ensures (meta, ok) == V2Pools.EnsurePoolOrder(old(meta), answer)
    {
      match answer
      case None => return false;
      case Some((t0, t1)) =>
        if t0 == meta.token0.address && t1 == meta.token1.address {
          return true;
        }
        if t0 == meta.token1.address && t1 == meta.token0.address {
          SwapPoolTokens();
          FinalizePool();
          return true;
        }
        return false;
    }

    method ShouldDrop(price: real) returns (drop: bool)
      requires Valid() && price > 0.0
      modifies this`lastPrice, this`prices
      ensures Valid() && prices == old(prices) + [price]
      ensures drop <==> PriceFilter.Accepted(prices) == PriceFilter.Accepted(old(prices))
      ensures !drop ==> PriceFilter.Accepted(prices) == PriceFilter.Accepted(old(prices)) + [price]
    {
      hide PriceFilter.Moves;
      assert (prices + [price])[..|prices|] == prices;
      ghost var all := prices + [price];
      prices := all;
      if lastPrice.None? {
        lastPrice := Some(price);
        return false;
      }
      var delta := price - lastPrice.value;
      if delta == 0.0 {
        assert !PriceFilter.Moves(lastPrice.value, price) by { NoMove(price); }
        return true;
      }
      var threshold := lastPrice.value / 10000.0;
      FilterStep(lastPrice.value, price);
      if PriceFilter.Abs(delta) < threshold {
        return true;
      }
      lastPrice := Some(price);
      return false;
    }

    /** A Sync event: the published price, if any; the pricer, which has its own state, is told the pool's quote. */
    method HandleSync(payload: seq<byte>, pricer: GraphPricer.GraphPricer, now: int) returns (published: Option<real>)
      requires Valid() && pricer.Valid() && now != QuoteGraph.ZERO_TIME
      modifies this`lastPrice, this`prices, pricer`edges, pricer`symbols, pricer`log
      ensures Valid() && pricer.Valid()
      ensures
        match ComputeSnapshot(meta, payload)
        case Priced(snap) =>
          && prices == old(prices) + [snap.price]
          && (published ==
                if PriceFilter.Accepted(prices) == PriceFilter.Accepted(old(prices)) then None else Some(snap.price))
        case _ => published == None && prices == old(prices)
      ensures published == None || meta.token0.address == "" || meta.token1.address == "" ==>
        pricer.log == old(pricer.log)
      ensures published != None && meta.token0.address != "" && meta.token1.address != "" ==>
        var snap := ComputeSnapshot(meta, payload).snapshot;
        && snap.reserve0 > 0
        && pricer.log == old(pricer.log) + [QuoteGraph.Quote(
             meta.token0.address, meta.token1.address,
             Ratio(snap.reserve1, meta.token1.decimals, snap.reserve0, meta.token0.decimals),
             LargerSide(snap.reserve0, meta.token0.decimals, snap.reserve1, meta.token1.decimals), now)]
        && pricer.symbols == old(pricer.symbols)
          [meta.token0.address := GraphPricer.DisplaySymbol(GraphPricer.TokenInfo(
             meta.token0.address, meta.token0.symbol, meta.token0.decimals))]
          [meta.token1.address := GraphPricer.DisplaySymbol(GraphPricer.TokenInfo(
             meta.token1.address, meta.token1.symbol, meta.token1.decimals))]
    {
      hide Ratio, PriceFilter.Accepted, QuoteGraph.Apply, GraphPricer.DisplaySymbol,
        GraphPricer.GraphPricer.Valid, LargerSide;
      var outcome := ComputeSnapshot(meta, payload);
      if !outcome.Priced? {
        return None;
      }
      var snap := outcome.snapshot;
      PricerQuote(meta, payload);
      assert snap.price > 0.0 by { SnapshotPositive(meta, payload); }
      var drop := ShouldDrop(snap.price);
      if drop {
        return None;
      }
      published := Some(snap.price);
      var price := Price1Per0(meta, snap);
      assert meta == old(meta);
      var weight := LargerSide(snap.reserve0, meta.token0.decimals, snap.reserve1, meta.token1.decimals);
      pricer.UpdatePair(InfoOf(meta.token0), InfoOf(meta.token1), price.value, weight, now, now);
    }
  }

  lemma NoMove(price: real)
    ensures !PriceFilter.Moves(price, price)
  {
  }

  lemma FilterStep(last: real, price: real)
    ensures PriceFilter.Moves(last, price) <==> price - last != 0.0 && PriceFilter.Abs(price - last) >= last / 10000.0
  {
  }

  lemma SnapshotPositive(pool: PoolConfig, payload: seq<byte>)
    requires ComputeSnapshot(pool, payload).Priced?
    ensures ComputeSnapshot(pool, payload).snapshot.price > 0.0
  {
  }
}
