/** If all quotes agree on what tokens are worth, so does every answer, whatever route it takes. */
module FairValue {
  import opened Sequences
  import opened QuoteGraph
  import opened Routes
  import opened GraphPricer

  /** What a unit of each token is worth in USD. */
  type Valuation = string -> real

  /** A unit of `a` buys `price` units of `b`. */
  ghost predicate FairQuote(value: Valuation, q: Quote) {
    value(q.a) > 0.0 && value(q.b) > 0.0 && q.price * value(q.b) == value(q.a)
  }

  ghost predicate FairGraph(value: Valuation, g: Graph) {
    forall a, b :: HasEdge(g, a, b) ==> value(b) > 0.0 && EdgeAt(g, a, b).price * value(b) == value(a)
  }

  lemma FairApply(value: Valuation, g: Graph, q: Quote)
    requires FairGraph(value, g) && FairQuote(value, q) && q.price > 0.0
    ensures FairGraph(value, Apply(g, q))
  {
    InverseIsFair(q.price, value(q.a), value(q.b));
    FairOffer(value, g, q.a, q.b, Edge(q.price, q.weight, q.ts));
    FairOffer(value, Offer(g, q.a, q.b, Edge(q.price, q.weight, q.ts)), q.b, q.a, Edge(1.0 / q.price, q.weight, q.ts));
  }

  lemma InverseIsFair(price: real, a: real, b: real)
    requires price > 0.0 && price * b == a
    ensures 1.0 / price * a == b
  {
  }

  lemma FairOffer(value: Valuation, g: Graph, from: string, to: string, e: Edge)
    requires FairGraph(value, g) && value(to) > 0.0 && e.price * value(to) == value(from)
    ensures FairGraph(value, Offer(g, from, to, e))
  {
    hide Put;
  }

  /** Fair quotes leave a fair graph, in whatever order, and at whatever weights and times, they arrive. */
  lemma {:induction false} FairReplay(value: Valuation, log: seq<Quote>)
    requires forall q :: q in log ==> q.Proper() && FairQuote(value, q)
    ensures FairGraph(value, Replay(log))
  {
    if log != [] {
      assert log[|log| - 1] in log;
      FairReplay(value, log[..|log| - 1]);
      FairApply(value, Replay(log[..|log| - 1]), log[|log| - 1]);
    }
  }

  /** On a fair graph prices telescope. */
  lemma {:induction false} WalkTelescopes(value: Valuation, g: Graph, p: seq<string>)
    requires FairGraph(value, g) && p != [] && Connected(g, p)
    ensures Price(g, p) * value(Last(p)) == value(p[0])
  {
    if |p| > 1 {
      var r, v := Init(p), Last(p);
      WalkTelescopes(value, g, r);
      assert HasEdge(g, p[|p| - 2], v) && FinalEdge(g, p) == EdgeAt(g, Last(r), v);
      var e := FinalEdge(g, p).price;
      assert Price(g, r) * e * value(v) == Price(g, r) * (e * value(v));
    }
  }

  /** With stables worth one dollar, an answer is exactly the token's value. */
  lemma AnswerIsFair(value: Valuation, log: seq<Quote>, q: Query, symbols: map<string, string>,
                     examined: seq<seq<string>>, res: Result, found: bool)
    requires forall r :: r in log ==> r.Proper() && FairQuote(value, r)
    requires q.g == Replay(log) && forall s :: s in q.stables ==> value(s) == 1.0
    requires Answers(q, symbols, examined, res, found) && found
    ensures res.price == value(q.from)
  {
    FairReplay(value, log);
    AnswerHasWitness(q, symbols, examined, res, found);
    var p :| p in examined && q.Reachable(p) && Simple(p) && res == QuoteOf(q.g, symbols, p);
    RouteIsFair(value, q, p);
  }

  /** Every route prices the token at its value. */
  lemma RouteIsFair(value: Valuation, q: Query, p: seq<string>)
    requires FairGraph(value, q.g) && forall s :: s in q.stables ==> value(s) == 1.0
    requires q.Route(p)
    ensures Price(q.g, p) == value(q.from)
  {
    RouteConnected(q, p);
    WalkTelescopes(value, q.g, p);
  }
}
