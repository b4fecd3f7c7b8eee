/** The shared pricer: connectors feed it quotes, and it resolves a token to USD through the quote graph. */
module GraphPricer {
  import opened Sequences
  import opened QuoteGraph
  import opened Routes
  import opened Search
  import Text

  const DEFAULT_MAX_HOPS := 3

  /** A token; `address` is the normalized address, empty for the zero address. */
  datatype TokenInfo = TokenInfo(address: string, symbol: string, decimals: int)

  function DisplaySymbol(token: TokenInfo): string {
    var symbol := Text.ToUpper(Text.TrimSpace(token.symbol));
    if symbol == "" then token.address else symbol
  }

  /** The displayed symbol has no lower-case letter and no blank at its ends; it is the token's own one, or its address
      if there is none. */
  lemma SymbolDisplayed(token: TokenInfo)
    ensures
      var symbol := DisplaySymbol(token);
      && (Text.Blank(token.symbol) ==> symbol == token.address)
      && (!Text.Blank(token.symbol) ==>
            && Text.Trimmed(symbol) && Text.ToLower(symbol) == Text.ToLower(Text.TrimSpace(token.symbol))
            && forall c :: c in symbol ==> !('a' <= c <= 'z'))
  {
    hide Text.TrimSpace, Text.ToUpper, Text.ToLower, Text.Trimmed, Text.Blank;
    Text.TrimSpaceTrims(token.symbol);
    Text.OnlyBlanksTrimAway(token.symbol);
    Text.UpperKeeps(Text.TrimSpace(token.symbol));
  }

  // ---------------------------------------------------------------- what an answer promises

  /** The tolerant comparisons a route can lose to: one for each of its inner edges, and one for each further route
      compared. The first edge is followed exactly, the last one decides on a candidate. */
  function Comparisons(q: Query, examined: nat): nat {
    Inexact(q.Bound() - 1) + Inexact(examined)
  }

  /** What the search answers for a token that is not a stable. `examined` lists the routes it compared, in the
      order the edge maps happened to be iterated. */
  ghost predicate Answers(q: Query, symbols: map<string, string>, examined: seq<seq<string>>,
                          res: Result, found: bool)
  {
    // it succeeds exactly when a stable is within reach
    && (found <==> exists p :: q.Reachable(p))
    // it compares distinct simple routes and answers with the quote of the one it keeps
    && RoutesOk(q, examined) && (found <==> examined != [])
    && res == Kept(QuotesOf(q, symbols, examined))
    && (forall v :: Usable(q.g, q.from, v) && v in q.stables ==> [q.from, v] in examined)
    // it is the widest route, up to one tolerance for each inner edge and each further route compared
    && (forall p :: q.Reachable(p) && found ==>
          res.weight >= Bottleneck(q.g, p) - Loss(Comparisons(q, |examined|), Tolerance(q.g)))
  }

  /** One simple route accounts for the whole answer. */
  lemma AnswerHasWitness(q: Query, symbols: map<string, string>, examined: seq<seq<string>>, res: Result, found: bool)
    requires Answers(q, symbols, examined, res, found) && found
    ensures exists p ::
      && p in examined && q.Reachable(p) && Simple(p) && res == QuoteOf(q.g, symbols, p) && |res.route| == |p|
      && forall i :: 0 <= i < |p| ==> res.route[i] == if p[i] in symbols then symbols[p[i]] else p[i]
  {
    hide Query.Reachable, Simple;
    var quotes := QuotesOf(q, symbols, examined);
    assert res in quotes;
    var i :| 0 <= i < |quotes| && quotes[i] == res;
    assert examined[i] in examined;
  }

  /** The bottleneck of a route is the weight of one of its edges. */
  lemma RouteWeight(q: Query, p: seq<string>)
    requires q.WellFormed() && q.Route(p)
    ensures EdgeWeight(q.g, Bottleneck(q.g, p)) && 0.0 < Bottleneck(q.g, p) <= MAX_FLOAT64
  {
    TransitWeight(q, Init(p));
  }

  lemma {:induction false} TransitWeight(q: Query, p: seq<string>)
    requires q.WellFormed() && q.Transit(p)
    ensures |p| > 1 ==> EdgeWeight(q.g, Bottleneck(q.g, p))
    ensures 0.0 < Bottleneck(q.g, p) <= MAX_FLOAT64
    decreases |p|
  {
    if |p| > 1 {
      TransitWeight(q, Init(p));
    }
  }

  lemma QuotesHaveEdgeWeights(q: Query, symbols: map<string, string>, routes: seq<seq<string>>)
    requires q.WellFormed() && RoutesOk(q, routes)
    ensures EdgeWeights(q.g, QuotesOf(q, symbols, routes))
  {
    hide EdgeWeight, Simple;
    forall i | 0 <= i < |routes|
      ensures EdgeWeight(q.g, Bottleneck(q.g, routes[i])) && 0.0 < Bottleneck(q.g, routes[i]) <= MAX_FLOAT64
    {
      RouteWeight(q, routes[i]);
    }
  }

  /** In any case the answer is within one tolerance for each inner edge and each further route compared. */
  lemma AnswerLoss(q: Query, symbols: map<string, string>, examined: seq<seq<string>>,
                   res: Result, found: bool, p: seq<string>)
    requires Answers(q, symbols, examined, res, found) && q.Reachable(p)
    ensures found && res.weight >= Bottleneck(q.g, p) - Comparisons(q, |examined|) as real * EQUAL_WEIGHT_EPSILON
  {
    hide Separated, RoutesOk, QuotesOf, Bottleneck, Kept, Query.Reachable;
    var n := Comparisons(q, |examined|);
    LossAtMost(n, Tolerance(q.g), EQUAL_WEIGHT_EPSILON);
    LossIsProduct(n, EQUAL_WEIGHT_EPSILON);
  }

  lemma {:induction false} LossAtMost(n: nat, t: real, u: real)
    requires t <= u
    ensures Loss(n, t) <= Loss(n, u)
  {
    if n > 0 {
      LossAtMost(n - 1, t, u);
    }
  }

  /** With separated weights the answer is a widest route. */
  lemma SeparatedAnswerIsWidest(q: Query, symbols: map<string, string>, examined: seq<seq<string>>,
                            res: Result, found: bool)
    requires q.WellFormed() && Answers(q, symbols, examined, res, found) && found && Separated(q.g)
    ensures forall p :: q.Reachable(p) ==> res.weight >= Bottleneck(q.g, p)
    ensures exists p :: q.Reachable(p) && res.weight == Bottleneck(q.g, p)
  {
    hide Separated, Query.Reachable, Query.WellFormed, RoutesOk, QuotesOf, Price, Bottleneck, Oldest, Kept;
    LossIsProduct(Comparisons(q, |examined|), 0.0);
    assert Tolerance(q.g) == 0.0;
    AnswerHasWitness(q, symbols, examined, res, found);
  }

  /** With separated weights the answer is the freshest of the widest routes compared. */
  lemma SeparatedAnswerIsFreshest(q: Query, symbols: map<string, string>, examined: seq<seq<string>>,
                            res: Result, found: bool)
    requires q.WellFormed() && Answers(q, symbols, examined, res, found) && found && Separated(q.g)
    ensures forall p :: p in examined && Bottleneck(q.g, p) == res.weight ==> Oldest(q.g, p) <= res.updatedAt
  {
    hide Separated, EdgeWeights, Query.Reachable, Query.WellFormed, RoutesOk, Price, Bottleneck, Oldest, Kept;
    QuotesHaveEdgeWeights(q, symbols, examined);
    var quotes := QuotesOf(q, symbols, examined);
    KeptIsFreshestHeaviest(q.g, quotes);
    forall p | p in examined && Bottleneck(q.g, p) == res.weight
      ensures Oldest(q.g, p) <= res.updatedAt
    {
      var i :| 0 <= i < |examined| && examined[i] == p;
      assert quotes[i] in quotes;
    }
  }

  /** With separated weights neither success nor weight depends on the order edges are iterated in. */
  lemma AnswerIndependentOfOrder(q: Query, symbols: map<string, string>,
                                 examined: seq<seq<string>>, res: Result, found: bool,
                                 examined': seq<seq<string>>, res': Result, found': bool)
    requires q.WellFormed() && Separated(q.g)
    requires Answers(q, symbols, examined, res, found)
    requires Answers(q, symbols, examined', res', found')
    ensures found == found' && res.weight == res'.weight
  {
    hide Separated, Query.Reachable, Query.WellFormed, RoutesOk;
    if found {
      SeparatedAnswerIsWidest(q, symbols, examined, res, found);
      SeparatedAnswerIsWidest(q, symbols, examined', res', found');
    }
  }

  /** An exhausted queue leaves the promised answer. */
  lemma Conclude(q: Query, symbols: map<string, string>, f: Frontier, s: State)
    requires q.WellFormed() && Inv(q, symbols, f, s, {}) && Covers(q, f.snap, f.level) && |s.queue| == 0
    ensures Answers(q, symbols, s.routes, Kept(s.cands), s.routes != [])
  {
    hide Inv, Covers, Query.WellFormed, Separated, EdgeWeights, Query.Reachable, Simple,
      QuotesOf, Price, Bottleneck, Kept;
    assert CandsOk(q, symbols, s) && Direct(q, s, Targets(q.g, q.from)) by { InvCands(q, symbols, f, s); }
    forall p | q.Reachable(p)
      ensures s.routes != []
      ensures Kept(s.cands).weight >= Bottleneck(q.g, p) - Loss(Comparisons(q, |s.routes|), Tolerance(q.g))
    {
      WithinLoss(q, symbols, f, s, p);
    }
    assert s.routes != [] ==> q.Reachable(s.routes[0]);
  }

  lemma InvCands(q: Query, symbols: map<string, string>, f: Frontier, s: State)
    requires Inv(q, symbols, f, s, {}) && s.queue == []
    ensures CandsOk(q, symbols, s) && Direct(q, s, Targets(q.g, q.from))
  {
  }

  lemma WithinLoss(q: Query, symbols: map<string, string>, f: Frontier, s: State, p: seq<string>)
    requires q.WellFormed() && Inv(q, symbols, f, s, {}) && Covers(q, f.snap, f.level) && |s.queue| == 0
    requires q.Reachable(p)
    ensures s.routes != []
    ensures Kept(s.cands).weight >= Bottleneck(q.g, p) - Loss(Comparisons(q, |s.routes|), Tolerance(q.g))
  {
    hide Inv, Covers, Query.WellFormed, RoutesOk, Separated, EdgeWeights, Query.Reachable,
      QuotesOf, Bottleneck, Kept, Heaviest;
    InvCands(q, symbols, f, s);
    Finished(q, symbols, f, s, p);
    KeptLoss(q.g, s.cands);
    LossSum(Inexact(q.Bound() - 1), |s.cands| - 1, Tolerance(q.g));
  }

  lemma {:induction false} LossSum(m: nat, n: nat, t: real)
    ensures Loss(m, t) + Loss(n, t) == Loss(m + n, t)
  {
    if n > 0 {
      LossSum(m, n - 1, t);
    }
  }

  lemma QueriesAreWellFormed(log: seq<Quote>, q: Query)
    requires (forall r :: r in log ==> r.Proper()) && q.g == Replay(log) && q.from !in q.stables
    ensures q.WellFormed()
  {
    ReplayBounded(log);
  }

  lemma NoStep(q: Query, symbols: map<string, string>, s: State)
    ensures Reaches(q, symbols, s, [], s)
  {
  }

  // ---------------------------------------------------------------- the pricer

  class GraphPricer {
    var edges: Graph
    var symbols: map<string, string>
    var stables: set<string>
    var maxHops: int
    /** Every quote that has reached the graph, oldest first. */
    ghost var log: seq<Quote>

    ghost predicate Valid()
      reads this
    {
      && (forall q :: q in log ==> q.Proper())
      && edges == Replay(log)
      && "" !in stables
    }

    constructor (anchors: seq<TokenInfo>)
      ensures Valid() && log == [] && maxHops == DEFAULT_MAX_HOPS
      ensures forall a :: a in stables <==> a != "" && exists t :: t in anchors && t.address == a
    {
      edges, symbols, stables, maxHops, log := map[], map[], {}, DEFAULT_MAX_HOPS, [];
      assert Replay([]) == map[];
      new;
      hide Text.ToUpper, Text.TrimSpace, Replay, Quote.Proper;
      for i := 0 to |anchors|
        invariant Valid() && log == [] && maxHops == DEFAULT_MAX_HOPS
        invariant fresh(this)
        invariant forall a :: a in stables ==> a != "" && exists t :: t in anchors && t.address == a
        invariant forall j :: 0 <= j < i && anchors[j].address != "" ==> anchors[j].address in stables
      {
        RegisterStable(anchors[i]);
      }
    }

    method RegisterToken(token: TokenInfo)
      modifies this`symbols
      ensures symbols ==
        if token.address == "" then old(symbols) else old(symbols)[token.address := DisplaySymbol(token)]
    {
      if token.address == "" {
        return;
      }
      var symbol := Text.ToUpper(Text.TrimSpace(token.symbol));
      if symbol == "" {
        symbol := token.address;
      }
      symbols := symbols[token.address := symbol];
    }

    method RegisterStable(token: TokenInfo)
      requires Valid()
      modifies this`symbols, this`stables
      ensures Valid()
      ensures symbols ==
        if token.address == "" then old(symbols) else old(symbols)[token.address := DisplaySymbol(token)]
      ensures stables == if token.address == "" then old(stables) else old(stables) + {token.address}
    {
      hide Text.ToUpper, Text.TrimSpace, Replay, Quote.Proper;
      if token.address == "" {
        return;
      }
      var symbol := Text.ToUpper(Text.TrimSpace(token.symbol));
      if symbol == "" {
        symbol := token.address;
      }
      symbols := symbols[token.address := symbol];
      stables := stables + {token.address};
    }

    method SetEdgeLocked(from: string, to: string, price: real, weight: real, ts: int)
      modifies this`edges
      ensures edges == Offer(old(edges), from, to, Edge(price, weight, ts))
    {
      var neighbors := if from in edges then edges[from] else map[];
      if to in neighbors {
        var cur := neighbors[to];
        if ts <= cur.updatedAt && weight <= cur.weight + EQUAL_WEIGHT_EPSILON {
          return;
        }
      }
      edges := edges[from := neighbors[to := Edge(price, weight, ts)]];
    }

    /** `now` is the clock, read only when the quote carries no time. */
    method UpdatePair(a: TokenInfo, b: TokenInfo, priceAB: real, weight: real, ts: int, now: int)
      requires Valid() && now != ZERO_TIME
      modifies this`edges, this`symbols, this`log
      ensures Valid()
      ensures
        if priceAB <= 0.0 || a.address == "" || b.address == "" then
          log == old(log) && edges == old(edges) && symbols == old(symbols)
        else
          var w := if weight <= 0.0 || weight > MAX_FLOAT64 then MIN_WEIGHT_EPSILON else weight;
          var q := Quote(a.address, b.address, priceAB, w, if ts == ZERO_TIME then now else ts);
          && log == old(log) + [q] && edges == Apply(old(edges), q)
          && symbols == old(symbols)[a.address := DisplaySymbol(a)][b.address := DisplaySymbol(b)]
    {
      hide Offer, Replay, Text.TrimSpace, Text.ToUpper;
      if priceAB <= 0.0 {
        return;
      }
      var weight, ts := weight, ts;
      if weight <= 0.0 || weight > MAX_FLOAT64 {
        weight := MIN_WEIGHT_EPSILON;
      }
      if ts == ZERO_TIME {
        ts := now;
      }
      if a.address == "" || b.address == "" {
        return;
      }
      RegisterToken(a);
      RegisterToken(b);
      SetEdgeLocked(a.address, b.address, priceAB, weight, ts);
      var inv := 1.0 / priceAB;
      SetEdgeLocked(b.address, a.address, inv, weight, ts);
      ghost var q := Quote(a.address, b.address, priceAB, weight, ts);
      ReplayStep(log, q);
      log := log + [q];
    }

    ghost function QueryFor(addr: string): Query
      reads this
    {
      Query(edges, stables, addr, maxHops)
    }

    method ResolveUSD(token: TokenInfo, now: int) returns (res: Result, found: bool, ghost examined: seq<seq<string>>)
      requires Valid()
      ensures token.address == "" ==> !found && res == Result(0.0, [], 0.0, ZERO_TIME)
      ensures token.address in stables ==>
        var symbol := if token.address in symbols then symbols[token.address] else token.address;
        found && res == Result(1.0, [symbol], MAX_FLOAT64, now)
      ensures token.address != "" && token.address !in stables ==>
        Answers(QueryFor(token.address), symbols, examined, res, found)
      // the answer is that of a run of the search, whose edge orders are the map's choice
      ensures token.address != "" && token.address !in stables ==>
        exists orders, t :: Reaches(QueryFor(token.address), symbols, StartState(token.address), orders, t)
          && t.queue == [] && examined == t.routes && res == Kept(t.cands)
    {
      examined := [];
      var addr := token.address;
      if addr == "" {
        return Result(0.0, [], 0.0, ZERO_TIME), false, [];
      }
      if addr in stables {
        return Result(1.0, [SymbolOf(symbols, addr)], MAX_FLOAT64, now), true, [];
      }

      hide Inv, Expanding, Covers, Answers, Replay, Query.WellFormed, Kept, SymbolPath, Reaches, FollowAll, Enumerates;
      ghost var q := QueryFor(addr);
      QueriesAreWellFormed(log, q);
      var visited := map[addr := Visit(MAX_FLOAT64, 0)];
      var queue := [Item(addr, 1.0, MAX_FLOAT64, ZERO_TIME, [addr], 0)];
      var best := NO_RESULT;
      found := false;

      ghost var f, s, orders := StartFrontier(addr), StartState(addr), [];
      Start(q, symbols);
      NoStep(q, symbols, s);
      while |queue| > 0
        invariant Inv(q, symbols, f, s, {}) && Covers(q, f.snap, f.level)
        invariant f.level < q.Bound() && f.k <= |queue|
        invariant s.queue == queue && s.visited == visited
        invariant found == (s.routes != []) == (s.cands != []) && best == Kept(s.cands)
        invariant Reaches(q, symbols, StartState(addr), orders, s)
        decreases q.Bound() - f.level, f.k
      {
        f := TakeNext(q, symbols, f, s);
        ghost var before := s;
        s := Dequeue(s);
        var cur := queue[0];
        queue := queue[1..];
        ghost var order;
        queue, visited, best, found, s, order := FollowEdges(q, f, s, cur, queue, visited, best, found);
        ReachesOneMore(q, symbols, StartState(addr), orders, before, order, s);
        orders := orders + [order];
      }
      Conclude(q, symbols, f, s);
      res, examined := best, s.routes;
    }

    /** The loop over the outgoing edges of one queued item, in whatever order the map yields them. */
    method FollowEdges(ghost q: Query, ghost f: Frontier, ghost s0: State, cur: Item, queue0: seq<Item>,
                       visited0: map<string, Visit>, best0: Result, found0: bool)
      returns (queue: seq<Item>, visited: map<string, Visit>, best: Result, found: bool, ghost s: State,
               ghost order: seq<string>)
      requires q == QueryFor(q.from) && q.WellFormed()
      requires s0.queue == queue0 && s0.visited == visited0
      requires found0 == (s0.routes != []) == (s0.cands != []) && best0 == Kept(s0.cands)
      requires Inv(q, symbols, f, s0, {(cur.addr, cur.weight)}) && Expanding(q, f, s0, cur, {})
      ensures s.queue == queue && s.visited == visited
      ensures found == (s.routes != []) == (s.cands != []) && best == Kept(s.cands)
      ensures Inv(q, symbols, f, s, {}) && f.level < q.Bound() && f.k <= |queue|
      ensures Enumerates(order, Targets(q.g, cur.addr)) && s == FollowAll(q, symbols, s0, cur, order)
    {
      hide Inv, Expanding, Query.WellFormed, Replay, ShouldVisit, BetterCandidate, VisitOf, SymbolPath, Kept, Extend;
      queue, visited, best, found, s, order := queue0, visited0, best0, found0, s0, [];
      var rest := Targets(edges, cur.addr);
      ghost var all := rest;
      assert all - rest == {};
      while rest != {}
        invariant rest <= all
        invariant s.queue == queue && s.visited == visited
        invariant found == (s.routes != []) == (s.cands != []) && best == Kept(s.cands)
        invariant Inv(q, symbols, f, s, {(cur.addr, cur.weight)}) && Expanding(q, f, s, cur, all - rest)
        invariant Enumerates(order, all - rest) && s == FollowAll(q, symbols, s0, cur, order)
      {
        var nextAddr :| nextAddr in rest;
        FollowKeeps(q, symbols, f, s, cur, all - rest, nextAddr, {(cur.addr, cur.weight)});
        FollowOneMore(q, symbols, s0, cur, order, nextAddr, all - rest);
        order := order + [nextAddr];
        assert all - (rest - {nextAddr}) == all - rest + {nextAddr};
        rest := rest - {nextAddr};
        ghost var before := s;
        s := Follow(q, symbols, s, cur, nextAddr);
        var e := edges[cur.addr][nextAddr];
        if e.price <= 0.0 {
          continue;
        }
        var it := Traverse(cur, nextAddr, e);
        if it.weight <= 0.0 {
          continue;
        }
        if nextAddr in stables {
          KeptAfterExamine(symbols, before, it);
          var candidate := Result(it.price, SymbolPath(symbols, it.path), it.weight, it.freshness);
          if !found || BetterCandidate(best, candidate) {
            best := candidate;
            found := true;
          }
          continue;
        }
        if it.hops >= maxHops {
          continue;
        }
        if !ShouldVisit(VisitOf(visited, nextAddr), it.weight, it.hops) {
          continue;
        }
        visited := visited[nextAddr := Visit(it.weight, it.hops)];
        queue := queue + [it];
      }
      Expanded(q, symbols, f, s, cur, all - rest);
    }

    /** Price, weight, freshness, path and hop count one edge further. */
    static method Traverse(cur: Item, nextAddr: string, e: Edge) returns (it: Item)
      requires cur.price > 0.0 && e.price > 0.0
      ensures it == Extend(cur, nextAddr, e) && it.addr == nextAddr
      ensures it.price > 0.0
      ensures cur.weight > 0.0 ==> (it.weight <= 0.0 <==> e.weight <= 0.0)
    {
      var nextPrice := cur.price * e.price;
      var nextWeight := cur.weight;
      if e.weight < nextWeight {
        nextWeight := e.weight;
      }
      var nextFresh := e.updatedAt;
      if cur.freshness != ZERO_TIME && cur.freshness < nextFresh {
        nextFresh := cur.freshness;
      }
      it := Item(nextAddr, nextPrice, nextWeight, nextFresh, cur.path + [nextAddr], cur.hops + 1);
    }
  }
}
