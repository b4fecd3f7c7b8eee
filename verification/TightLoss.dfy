/** Quotes and an iteration order with which a search of the pricer loses all that it can lose. */
module TightLoss {
  import opened Sequences
  import opened QuoteGraph
  import opened Routes
  import opened Search
  import opened GraphPricer

  function Members(s: seq<string>): set<string> {
    set a | a in s
  }

  const EPS: real := EQUAL_WEIGHT_EPSILON

  /** A token `t` with two neighbours `x` and `y`, joined to each other, and anchors behind `y`. */
  datatype Net = Net(t: string, x: string, y: string, anchors: seq<string>, w: real) {

    ghost predicate Ok() {
      && t != x && t != y && x != y && anchors != []
      && (forall i :: 0 <= i < |anchors| ==> anchors[i] !in {t, x, y})
      && (forall i, j :: 0 <= i < j < |anchors| ==> anchors[i] != anchors[j])
      && (|anchors| + 1) as real * EPS < w <= MAX_FLOAT64
    }

    /** The first anchor's edge is as heavy as any; each further one is a tolerance lighter than the last candidate. */
    function AnchorWeight(i: nat): real {
      if i == 0 then w else w - (i + 1) as real * EPS
    }

    /** The anchors are quoted one after the other, then the neighbours; `y` is a tolerance lighter than `x`. */
    function Quotes(): seq<Quote> {
      var n := |anchors|;
      seq(n, i requires 0 <= i < n => Quote(y, anchors[i], 1.0, AnchorWeight(i), i + 1)) +
      [Quote(t, y, 1.0, w - EPS, n + 1), Quote(t, x, 1.0, w, n + 1), Quote(x, y, 1.0, w, n + 1)]
    }

    ghost function Search(): Query
      requires Ok()
    {
      QuotesProper(this);
      Query(Replay(Quotes()), Members(anchors), t, DEFAULT_MAX_HOPS)
    }
  }

  lemma AnchorWeights(net: Net, i: nat)
    requires net.Ok() && i < |net.anchors|
    ensures 0.0 < net.AnchorWeight(i) <= MAX_FLOAT64 && 0.0 < net.w - (i + 1) as real * EPS <= net.AnchorWeight(i)
  {
    assert (i + 1) as real <= (|net.anchors| + 1) as real;
  }

  lemma QuotesProper(net: Net)
    requires net.Ok()
    ensures forall q :: q in net.Quotes() ==> q.Proper() && q.a != q.b
    ensures InTimeOrder(net.Quotes())
  {
    forall i | 0 <= i < |net.anchors| ensures 0.0 < net.AnchorWeight(i) <= MAX_FLOAT64 { AnchorWeights(net, i); }
    assert EPS < net.w by { AnchorWeights(net, 0); }
  }

  /** A pair is quoted at most once. */
  lemma QuotedOnce(net: Net, a: string, b: string, i: nat, j: nat)
    requires net.Ok() && i < |net.Quotes()| && j < |net.Quotes()|
    requires net.Quotes()[i].Touches(a, b) && net.Quotes()[j].Touches(a, b)
    ensures i == j
  {
    hide Net.AnchorWeight;
  }

  /** So each edge of the graph is its pair's one quote. */
  lemma EdgeOfQuote(net: Net, a: string, b: string, i: nat)
    requires net.Ok() && i < |net.Quotes()| && net.Quotes()[i].Touches(a, b)
    ensures HasEdge(net.Search().g, a, b)
    ensures EdgeAt(net.Search().g, a, b) == Edge(1.0, net.Quotes()[i].weight, net.Quotes()[i].ts)
  {
    hide Replay, Net.AnchorWeight;
    QuotesProper(net);
    var log := net.Quotes();
    StoredEdgesWereQuoted(log, a, b);
    var j :| 0 <= j < |log| && log[j].Touches(a, b) && log[j].As(a, b) == EdgeAt(Replay(log), a, b);
    QuotedOnce(net, a, b, i, j);
    assert log[i] in log && log[i].price == 1.0;
  }

  lemma EdgeWasQuoted(net: Net, a: string, b: string) returns (i: nat)
    requires net.Ok() && HasEdge(net.Search().g, a, b)
    ensures i < |net.Quotes()| && net.Quotes()[i].Touches(a, b)
  {
    hide Replay, Net.AnchorWeight;
    QuotesProper(net);
    StoredEdgesWereQuoted(net.Quotes(), a, b);
    i :| 0 <= i < |net.Quotes()| && net.Quotes()[i].Touches(a, b);
  }

  /** The edges of the net. */
  lemma Edges(net: Net)
    requires net.Ok()
    ensures
      var g, n := net.Search().g, |net.anchors|;
      && HasEdge(g, net.t, net.y) && EdgeAt(g, net.t, net.y) == Edge(1.0, net.w - EPS, n + 1)
      && HasEdge(g, net.y, net.t) && EdgeAt(g, net.y, net.t) == Edge(1.0, net.w - EPS, n + 1)
      && HasEdge(g, net.t, net.x) && EdgeAt(g, net.t, net.x) == Edge(1.0, net.w, n + 1)
      && HasEdge(g, net.x, net.t) && EdgeAt(g, net.x, net.t) == Edge(1.0, net.w, n + 1)
      && HasEdge(g, net.x, net.y) && EdgeAt(g, net.x, net.y) == Edge(1.0, net.w, n + 1)
      && HasEdge(g, net.y, net.x) && EdgeAt(g, net.y, net.x) == Edge(1.0, net.w, n + 1)
      && forall i :: 0 <= i < n ==>
        && HasEdge(g, net.y, net.anchors[i])
        && EdgeAt(g, net.y, net.anchors[i]) == Edge(1.0, net.AnchorWeight(i), i + 1)
  {
    hide Replay, Net.AnchorWeight, Net.Search;
    var n := |net.anchors|;
    EdgeOfQuote(net, net.t, net.y, n);
    EdgeOfQuote(net, net.y, net.t, n);
    EdgeOfQuote(net, net.t, net.x, n + 1);
    EdgeOfQuote(net, net.x, net.t, n + 1);
    EdgeOfQuote(net, net.x, net.y, n + 2);
    EdgeOfQuote(net, net.y, net.x, n + 2);
    forall i | 0 <= i < n
      ensures HasEdge(net.Search().g, net.y, net.anchors[i])
      ensures EdgeAt(net.Search().g, net.y, net.anchors[i]) == Edge(1.0, net.AnchorWeight(i), i + 1)
    {
      EdgeOfQuote(net, net.y, net.anchors[i], i);
    }
  }

  lemma NetTargets(net: Net)
    requires net.Ok()
    ensures
      var g := net.Search().g;
      && Targets(g, net.t) == {net.x, net.y} && Targets(g, net.x) == {net.t, net.y}
      && Targets(g, net.y) == {net.t, net.x} + net.Search().stables
  {
    hide Replay, Net.AnchorWeight;
    Edges(net);
    var g := net.Search().g;
    forall u, v | u in {net.t, net.x, net.y} && v in Targets(g, u)
      ensures v in if u == net.t then {net.x, net.y} else if u == net.x then {net.t, net.y}
                   else {net.t, net.x} + net.Search().stables
    {
      var i := EdgeWasQuoted(net, u, v);
    }
  }

  // ---------------------------------------------------------------- the run

  function ItemX(net: Net): Item {
    Item(net.x, 1.0, net.w, |net.anchors| + 1, [net.t, net.x], 1)
  }

  function ItemY(net: Net): Item {
    Item(net.y, 1.0, net.w - EPS, |net.anchors| + 1, [net.t, net.y], 1)
  }

  function Visits(net: Net): map<string, Visit> {
    map[net.t := Visit(MAX_FLOAT64, 0), net.y := Visit(net.w - EPS, 1), net.x := Visit(net.w, 1)]
  }

  /** What the candidates of the first k anchors are. */
  function Found(net: Net, symbols: map<string, string>, k: nat): seq<Result>
    requires k <= |net.anchors|
  {
    seq(k, i requires 0 <= i < k =>
      Result(1.0, SymbolPath(symbols, [net.t, net.y, net.anchors[i]]), net.w - (i + 1) as real * EPS, i + 1))
  }

  function FoundRoutes(net: Net, k: nat): seq<seq<string>>
    requires k <= |net.anchors|
  {
    seq(k, i requires 0 <= i < k => [net.t, net.y, net.anchors[i]])
  }

  ghost predicate At(net: Net, s: State, queue: seq<Item>) {
    s.queue == queue && s.visited == Visits(net)
  }

  lemma SearchOf(net: Net)
    requires net.Ok()
    ensures
      var q := net.Search();
      && q.from == net.t && q.maxHops == DEFAULT_MAX_HOPS
      && (forall a :: a in q.stables <==> a in net.anchors)
      && net.t !in q.stables && net.x !in q.stables && net.y !in q.stables
  {
  }

  lemma NoneFollowed(q: Query, symbols: map<string, string>, s: State, cur: Item)
    ensures FollowAll(q, symbols, s, cur, []) == s
  {
  }

  lemma FollowTwo(q: Query, symbols: map<string, string>, s: State, cur: Item, u: string, v: string)
    requires u != v && HasEdge(q.g, cur.addr, u) && HasEdge(q.g, cur.addr, v)
    ensures FollowAll(q, symbols, s, cur, [u, v]) == Follow(q, symbols, Follow(q, symbols, s, cur, u), cur, v)
    ensures Enumerates([u, v], {u, v})
  {
    hide Follow, FollowAll;
    assert [] + [u] == [u] && [u] + [v] == [u, v] && {} + {u} == {u} && {u} + {v} == {u, v};
    FollowOneMore(q, symbols, s, cur, [], u, {});
    FollowOneMore(q, symbols, s, cur, [u], v, {u});
    NoneFollowed(q, symbols, s, cur);
  }

  lemma NewVisit(q: Query, symbols: map<string, string>, s: State, cur: Item, v: string, it: Item)
    requires Usable(q.g, cur.addr, v) && v !in q.stables && v !in s.visited
    requires it == Extend(cur, v, EdgeAt(q.g, cur.addr, v)) && it.weight > 0.0 && it.hops < q.maxHops
    ensures Follow(q, symbols, s, cur, v) == Enqueue(s, it)
  {
  }

  lemma NoVisit(q: Query, symbols: map<string, string>, s: State, cur: Item, v: string)
    requires Usable(q.g, cur.addr, v) && v !in q.stables && v in s.visited && s.visited[v].weight > 0.0
    requires Min(cur.weight, EdgeAt(q.g, cur.addr, v).weight) <= s.visited[v].weight + EPS
    requires s.visited[v].hops <= cur.hops + 1
    ensures Follow(q, symbols, s, cur, v) == s
  {
  }

  /** The token's neighbours are queued, `y` first. */
  lemma FirstRound(net: Net, symbols: map<string, string>) returns (s: State)
    requires net.Ok()
    ensures Expands(net.Search(), symbols, StartState(net.t), [net.y, net.x], s)
    ensures At(net, s, [ItemY(net), ItemX(net)]) && s.cands == [] && s.routes == []
  {
    Edges(net);
    NetTargets(net);
    AnchorWeights(net, 0);
    SearchOf(net);
    hide Net.Search, Net.Ok, Replay, Net.AnchorWeight, FollowAll, Follow;
    var q, s0, cur := net.Search(), Dequeue(StartState(net.t)), StartItem(net.t);
    assert cur.path + [net.y] == [net.t, net.y] && cur.path + [net.x] == [net.t, net.x];
    NewVisit(q, symbols, s0, cur, net.y, ItemY(net));
    NewVisit(q, symbols, Enqueue(s0, ItemY(net)), cur, net.x, ItemX(net));
    FollowTwo(q, symbols, s0, cur, net.y, net.x);
    s := Enqueue(Enqueue(s0, ItemY(net)), ItemX(net));
  }

  function OrderOfY(net: Net, k: nat): seq<string>
    requires k <= |net.anchors|
  {
    [net.t, net.x] + net.anchors[..k]
  }

  lemma OrderEnumerates(net: Net, k: nat)
    requires net.Ok() && k <= |net.anchors|
    ensures Enumerates(OrderOfY(net, k), {net.t, net.x} + Members(net.anchors[..k]))
    ensures k < |net.anchors| ==>
      && OrderOfY(net, k + 1) == OrderOfY(net, k) + [net.anchors[k]]
      && net.anchors[k] !in {net.t, net.x} + Members(net.anchors[..k])
  {
    var o := OrderOfY(net, k);
    forall i, j | 0 <= i < j < |o| ensures o[i] != o[j] {
      assert j >= 2 ==> o[j] == net.anchors[j - 2];
      assert i >= 2 ==> o[i] == net.anchors[i - 2];
    }
  }

  lemma FollowAnchor(net: Net, symbols: map<string, string>, s: State, k: nat)
    requires net.Ok() && k < |net.anchors| && At(net, s, [ItemX(net)])
    requires s.cands == Found(net, symbols, k) && s.routes == FoundRoutes(net, k)
    requires HasEdge(net.Search().g, net.y, net.anchors[k])
    ensures
      var t := Follow(net.Search(), symbols, s, ItemY(net), net.anchors[k]);
      At(net, t, [ItemX(net)]) && t.cands == Found(net, symbols, k + 1) && t.routes == FoundRoutes(net, k + 1)
  {
    Edges(net);
    SearchOf(net);
    AnchorWeights(net, k);
    assert k == 0 ==> net.AnchorWeight(k) == net.w && (k + 1) as real == 1.0;
    assert k > 0 ==> net.AnchorWeight(k) == net.w - (k + 1) as real * EPS && (k + 1) as real >= 2.0;
    hide Net.Search, Net.Ok, Replay, Net.AnchorWeight;
    assert ItemY(net).path + [net.anchors[k]] == [net.t, net.y, net.anchors[k]];
  }

  lemma FollowNeighbours(net: Net, symbols: map<string, string>, s: State)
    requires net.Ok() && At(net, s, [ItemX(net)])
    requires HasEdge(net.Search().g, net.y, net.t) && HasEdge(net.Search().g, net.y, net.x)
    ensures FollowAll(net.Search(), symbols, s, ItemY(net), [net.t, net.x]) == s
  {
    Edges(net);
    SearchOf(net);
    AnchorWeights(net, 0);
    hide Net.Search, Net.Ok, Replay, Net.AnchorWeight, FollowAll, Follow;
    var q, cur := net.Search(), ItemY(net);
    NoVisit(q, symbols, s, cur, net.t);
    NoVisit(q, symbols, s, cur, net.x);
    FollowTwo(q, symbols, s, cur, net.t, net.x);
  }

  lemma OrderHasEdges(net: Net, k: nat)
    requires net.Ok() && k <= |net.anchors|
    ensures forall v :: v in OrderOfY(net, k) ==> HasEdge(net.Search().g, net.y, v)
  {
    Edges(net);
    hide Net.Search, Net.Ok, Replay, Net.AnchorWeight;
  }

  lemma {:induction false} FollowAnchors(net: Net, symbols: map<string, string>, s: State, k: nat)
    requires net.Ok() && k <= |net.anchors| && At(net, s, [ItemX(net)]) && s.cands == [] && s.routes == []
    requires forall v :: v in OrderOfY(net, k) ==> HasEdge(net.Search().g, net.y, v)
    ensures
      var t := FollowAll(net.Search(), symbols, s, ItemY(net), OrderOfY(net, k));
      At(net, t, [ItemX(net)]) && t.cands == Found(net, symbols, k) && t.routes == FoundRoutes(net, k)
  {
    hide Net.Search, Net.Ok, Replay, Net.AnchorWeight, FollowAll, Follow, Enumerates;
    if k == 0 {
      assert OrderOfY(net, 0) == [net.t, net.x];
      assert net.t in OrderOfY(net, 0) && net.x in OrderOfY(net, 0);
      FollowNeighbours(net, symbols, s);
    } else {
      var a, o := net.anchors[k - 1], OrderOfY(net, k - 1);
      OrderEnumerates(net, k - 1);
      OrderHasEdges(net, k - 1);
      assert a in OrderOfY(net, k);
      FollowAnchors(net, symbols, s, k - 1);
      FollowOneMore(net.Search(), symbols, s, ItemY(net), o, a, {net.t, net.x} + Members(net.anchors[..k - 1]));
      FollowAnchor(net, symbols, FollowAll(net.Search(), symbols, s, ItemY(net), o), k - 1);
    }
  }

  /** Behind `y` the anchors are compared one after the other; `x` and the token are not visited again. */
  lemma SecondRound(net: Net, symbols: map<string, string>, s: State) returns (t: State)
    requires net.Ok() && At(net, s, [ItemY(net), ItemX(net)]) && s.cands == [] && s.routes == []
    ensures Expands(net.Search(), symbols, s, OrderOfY(net, |net.anchors|), t)
    ensures At(net, t, [ItemX(net)])
    ensures t.cands == Found(net, symbols, |net.anchors|) && t.routes == FoundRoutes(net, |net.anchors|)
  {
    var n := |net.anchors|;
    NetTargets(net);
    OrderEnumerates(net, n);
    SearchOf(net);
    assert net.anchors[..n] == net.anchors;
    assert Members(net.anchors) == net.Search().stables;
    OrderHasEdges(net, n);
    FollowAnchors(net, symbols, Dequeue(s), n);
    hide Net.Search, Net.Ok, Replay, Net.AnchorWeight, FollowAll, Follow, Enumerates;
    t := FollowAll(net.Search(), symbols, Dequeue(s), ItemY(net), OrderOfY(net, n));
  }

  /** The heavier way to `y` over `x` is a near-tie and is not taken. */
  lemma ThirdRound(net: Net, symbols: map<string, string>, s: State) returns (t: State)
    requires net.Ok() && At(net, s, [ItemX(net)])
    ensures Expands(net.Search(), symbols, s, [net.t, net.y], t)
    ensures t.queue == [] && t.cands == s.cands && t.routes == s.routes
  {
    Edges(net);
    NetTargets(net);
    AnchorWeights(net, 0);
    SearchOf(net);
    hide Net.Search, Net.Ok, Replay, Net.AnchorWeight, FollowAll, Follow;
    var q, cur := net.Search(), ItemX(net);
    t := Dequeue(s);
    NoVisit(q, symbols, t, cur, net.t);
    NoVisit(q, symbols, t, cur, net.y);
    FollowTwo(q, symbols, t, cur, net.t, net.y);
  }

  function WidestRoute(net: Net): seq<string>
    requires net.anchors != []
  {
    [net.t, net.x, net.y, net.anchors[0]]
  }

  lemma WidestIsReachable(net: Net)
    requires net.Ok()
    ensures net.Search().Reachable(WidestRoute(net)) && Bottleneck(net.Search().g, WidestRoute(net)) == net.w
  {
    Edges(net);
    SearchOf(net);
    AnchorWeights(net, 0);
    assert net.AnchorWeight(0) == net.w;
    hide Net.Search, Net.Ok, Replay, Net.AnchorWeight;
    var q, p := net.Search(), WidestRoute(net);
    assert Init(p) == [net.t, net.x, net.y] && Init([net.t, net.x, net.y]) == [net.t, net.x];
    assert Init([net.t, net.x]) == [net.t];
    assert q.Transit([net.t]) && q.Transit([net.t, net.x]) && q.Transit([net.t, net.x, net.y]);
    assert FinalEdge(q.g, [net.t, net.x]).weight == net.w && FinalEdge(q.g, [net.t, net.x, net.y]).weight == net.w;
    assert Bottleneck(q.g, [net.t]) == MAX_FLOAT64;
    assert Bottleneck(q.g, [net.t, net.x]) == net.w && Bottleneck(q.g, [net.t, net.x, net.y]) == net.w;
    assert FinalEdge(q.g, p).weight == net.w;
  }

  lemma FoundDrift(net: Net, symbols: map<string, string>)
    requires net.Ok()
    ensures Kept(Found(net, symbols, |net.anchors|)).weight == net.w - |net.anchors| as real * EPS
  {
    var n, cands := |net.anchors|, Found(net, symbols, |net.anchors|);
    forall i | 0 <= i < n ensures cands[i].weight == (net.w - EPS) - i as real * EPS {
      assert (i + 1) as real == i as real + 1.0;
    }
    LastOfDriftIsKept(cands, net.w - EPS);
    assert (n - 1) as real + 1.0 == n as real;
  }

  /** For any number of anchors, a run that starts with `y` answers with a weight that falls short of the widest route's
      by one tolerance for every comparison the loss bound allows for. */
  lemma LossBoundIsTight(net: Net, symbols: map<string, string>) returns (orders: seq<seq<string>>, t: State)
    requires net.Ok()
    ensures Reaches(net.Search(), symbols, StartState(net.t), orders, t) && t.queue == []
    ensures |t.routes| == |net.anchors| && net.Search().Reachable(WidestRoute(net))
    ensures Kept(t.cands).weight ==
      Bottleneck(net.Search().g, WidestRoute(net)) - Comparisons(net.Search(), |t.routes|) as real * EPS
  {
    var q, n := net.Search(), |net.anchors|;
    SearchOf(net);
    WidestIsReachable(net);
    FoundDrift(net, symbols);
    hide Net.Search, Net.Ok, Replay, Net.AnchorWeight, Expands, Found, Kept, Bottleneck, Query.Reachable;
    var s0 := StartState(net.t);
    var s1 := FirstRound(net, symbols);
    var s2 := SecondRound(net, symbols, s1);
    t := ThirdRound(net, symbols, s2);
    NoStep(q, symbols, s0);
    hide Reaches;
    ReachesOneMore(q, symbols, s0, [], s0, [net.y, net.x], s1);
    ReachesOneMore(q, symbols, s0, [] + [[net.y, net.x]], s1, OrderOfY(net, n), s2);
    orders := [] + [[net.y, net.x]] + [OrderOfY(net, n)];
    ReachesOneMore(q, symbols, s0, orders, s2, [net.t, net.y], t);
    orders := orders + [[net.t, net.y]];
  }
}
