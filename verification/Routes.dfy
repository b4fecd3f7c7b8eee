/** Walks of the quote graph and what a USD quote along one of them amounts to. */
module Routes {
  import opened Sequences
  import opened QuoteGraph

  datatype Result = Result(price: real, route: seq<string>, weight: real, updatedAt: int)

  function Min(a: real, b: real): real {
    if a <= b then a else b
  }

  /** One search: the graph, the anchors, the (non-stable) token asked for and the hop limit. */
  datatype Query = Query(g: Graph, stables: set<string>, from: string, maxHops: int) {

    /** The last edge into a stable is taken before the hop limit is looked at. */
    function Bound(): nat {
      if maxHops < 1 then 1 else maxHops
    }

    ghost predicate WellFormed() {
      && from !in stables
      && forall a, b :: HasEdge(g, a, b) ==>
        EdgeAt(g, a, b).weight <= MAX_FLOAT64 && EdgeAt(g, a, b).updatedAt != ZERO_TIME
    }

    /** A walk of usable edges from the token that meets no stable. */
    ghost predicate Transit(p: seq<string>)
      decreases |p|
    {
      && p != []
      && Last(p) !in stables
      && if |p| == 1 then p[0] == from else Transit(Init(p)) && Usable(g, Last(Init(p)), Last(p))
    }

    /** A walk of usable edges from the token to the first stable it meets. */
    ghost predicate Route(p: seq<string>) {
      && |p| >= 2
      && Transit(Init(p))
      && Usable(g, Last(Init(p)), Last(p))
      && Last(p) in stables
    }

    /** A route the search is allowed to take. */
    ghost predicate Reachable(p: seq<string>) {
      Route(p) && |p| - 1 <= Bound()
    }
  }

  ghost predicate Simple(p: seq<string>) {
    forall i, j :: 0 <= i < j < |p| ==> p[i] != p[j]
  }

  /** Consecutive addresses are joined by stored edges. */
  ghost predicate Connected(g: Graph, p: seq<string>) {
    forall i :: 0 < i < |p| ==> HasEdge(g, p[i - 1], p[i])
  }

  /** The edge into the i-th address of a walk. */
  ghost function Hop(g: Graph, p: seq<string>, i: nat): Edge {
    if 0 < i < |p| && HasEdge(g, p[i - 1], p[i]) then EdgeAt(g, p[i - 1], p[i]) else Edge(1.0, MAX_FLOAT64, ZERO_TIME)
  }

  ghost function FinalEdge(g: Graph, p: seq<string>): Edge
    requires p != []
  {
    Hop(g, p, |p| - 1)
  }

  /** The product of the edge prices. */
  ghost function Price(g: Graph, p: seq<string>): real {
    if |p| < 2 then 1.0 else Price(g, Init(p)) * FinalEdge(g, p).price
  }

  /** The lightest edge weight; MAX_FLOAT64 for a walk without edges. */
  ghost function Bottleneck(g: Graph, p: seq<string>): real {
    if |p| < 2 then MAX_FLOAT64 else Min(Bottleneck(g, Init(p)), FinalEdge(g, p).weight)
  }

  /** The oldest edge timestamp; ZERO_TIME for a walk without edges. */
  ghost function Oldest(g: Graph, p: seq<string>): int {
    if |p| < 2 then ZERO_TIME
    else if |p| == 2 || FinalEdge(g, p).updatedAt < Oldest(g, Init(p)) then FinalEdge(g, p).updatedAt
    else Oldest(g, Init(p))
  }

  function SymbolOf(symbols: map<string, string>, a: string): string {
    if a in symbols then symbols[a] else a
  }

  function SymbolPath(symbols: map<string, string>, p: seq<string>): (r: seq<string>)
    ensures |r| == |p|
    ensures forall i :: 0 <= i < |p| ==> r[i] == SymbolOf(symbols, p[i])
  {
    seq(|p|, i requires 0 <= i < |p| => SymbolOf(symbols, p[i]))
  }

  /** The quote a route stands for. */
  ghost function QuoteOf(g: Graph, symbols: map<string, string>, p: seq<string>): Result {
    Result(Price(g, p), SymbolPath(symbols, p), Bottleneck(g, p), Oldest(g, p))
  }

  /** Bottleneck and Oldest are the minima over the edges of the walk. */
  lemma {:induction false} MinimaOverEdges(g: Graph, p: seq<string>)
    requires |p| >= 2
    requires forall i :: 0 < i < |p| ==> Hop(g, p, i).weight <= MAX_FLOAT64
    ensures forall i :: 0 < i < |p| ==>
      Bottleneck(g, p) <= Hop(g, p, i).weight && Oldest(g, p) <= Hop(g, p, i).updatedAt
    ensures exists i :: 0 < i < |p| && Bottleneck(g, p) == Hop(g, p, i).weight
    ensures exists i :: 0 < i < |p| && Oldest(g, p) == Hop(g, p, i).updatedAt
  {
    var r := Init(p);
    if |p| > 2 {
      forall i | 0 < i < |r| ensures Hop(g, r, i) == Hop(g, p, i) {}
      MinimaOverEdges(g, r);
    }
  }

  lemma {:induction false} TransitConnected(q: Query, p: seq<string>)
    requires q.Transit(p)
    ensures p[0] == q.from && Connected(q.g, p)
    ensures forall x :: x in p ==> x !in q.stables
    decreases |p|
  {
    if |p| > 1 {
      TransitConnected(q, Init(p));
      assert p == Init(p) + [Last(p)];
    }
  }

  lemma RouteConnected(q: Query, p: seq<string>)
    requires q.Route(p)
    ensures p[0] == q.from && Connected(q.g, p)
    ensures forall i :: 0 <= i < |p| - 1 ==> p[i] !in q.stables
  {
    TransitConnected(q, Init(p));
    forall i | 0 <= i < |p| - 1 ensures p[i] !in q.stables { assert p[i] == Init(p)[i]; }
  }

  /** The edges of a walk are stored, with positive price and weight. */
  ghost predicate Walk(g: Graph, p: seq<string>) {
    forall i :: 0 < i < |p| ==>
      HasEdge(g, p[i - 1], p[i]) && EdgeAt(g, p[i - 1], p[i]).price > 0.0 && EdgeAt(g, p[i - 1], p[i]).weight > 0.0
  }

  lemma {:induction false} TransitIff(q: Query, p: seq<string>)
    ensures q.Transit(p) <==>
      p != [] && p[0] == q.from && Walk(q.g, p) && forall i :: 0 <= i < |p| ==> p[i] !in q.stables
    decreases |p|
  {
    if |p| > 1 {
      TransitIff(q, Init(p));
      LastStep(q.g, p);
      assert p == Init(p) + [Last(p)];
    }
  }

  lemma LastStep(g: Graph, p: seq<string>)
    requires |p| > 1
    ensures Walk(g, p) <==> Walk(g, Init(p)) && Usable(g, Last(Init(p)), Last(p))
  {
    forall i | 0 <= i < |p| - 1 ensures p[i] == Init(p)[i] {}
  }

  /** The routes the search may take are the walks from the token along stored edges of positive price and weight that
      first meet a stable at their end, of at most as many edges as there are hops, or of a single edge. */
  lemma ReachableIff(q: Query, p: seq<string>)
    ensures q.Reachable(p) <==>
      && |p| >= 2 && p[0] == q.from && p[|p| - 1] in q.stables
      && (forall i :: 0 <= i < |p| - 1 ==> p[i] !in q.stables)
      && (|p| == 2 || |p| - 1 <= q.maxHops)
      && (forall i :: 0 < i < |p| ==>
            HasEdge(q.g, p[i - 1], p[i]) &&
            EdgeAt(q.g, p[i - 1], p[i]).price > 0.0 && EdgeAt(q.g, p[i - 1], p[i]).weight > 0.0)
  {
    hide HasEdge, EdgeAt, Usable;
    if |p| >= 2 {
      TransitIff(q, Init(p));
      LastStep(q.g, p);
      forall i | 0 <= i < |p| - 1 ensures p[i] == Init(p)[i] {}
    }
  }

  // ---------------------------------------------------------------- weights

  /** The weight of some usable edge. */
  ghost predicate EdgeWeight(g: Graph, w: real) {
    exists a, b :: Usable(g, a, b) && EdgeAt(g, a, b).weight == w
  }

  /** Different edge weights differ by more than the tolerance. */
  ghost predicate Separated(g: Graph) {
    forall v, w :: EdgeWeight(g, v) && EdgeWeight(g, w) && v < w ==> v + EQUAL_WEIGHT_EPSILON < w
  }

  /** What one tolerant comparison of weights can lose. */
  ghost function Tolerance(g: Graph): (t: real)
    ensures t >= 0.0
  {
    if Separated(g) then 0.0 else EQUAL_WEIGHT_EPSILON
  }

  /** A tolerant comparison of two weights of the search is off by at most Tolerance. */
  lemma TolerantCompare(g: Graph, v: real, w: real)
    requires EdgeWeight(g, v) && v <= MAX_FLOAT64
    requires EdgeWeight(g, w) || w == MAX_FLOAT64
    requires v <= w + EQUAL_WEIGHT_EPSILON
    ensures v <= w + Tolerance(g)
  {
  }

  // ---------------------------------------------------------------- choosing among candidates

  predicate BetterCandidate(current: Result, candidate: Result) {
    || candidate.weight > current.weight + EQUAL_WEIGHT_EPSILON
    || (-EQUAL_WEIGHT_EPSILON <= candidate.weight - current.weight <= EQUAL_WEIGHT_EPSILON
        && candidate.updatedAt > current.updatedAt)
  }

  const NO_RESULT := Result(0.0, [], -1.0, ZERO_TIME)

  /** The candidate kept after examining all of `cands` in order. */
  function Kept(cands: seq<Result>): (r: Result)
    ensures cands != [] ==> r in cands
  {
    if cands == [] then NO_RESULT
    else if |cands| == 1 || BetterCandidate(Kept(Init(cands)), Last(cands)) then Last(cands)
    else Kept(Init(cands))
  }

  ghost function Heaviest(cands: seq<Result>): (w: real)
    ensures forall c :: c in cands ==> c.weight <= w
    ensures w == 0.0 || exists c :: c in cands && c.weight == w
  {
    if cands == [] then 0.0
    else if Last(cands).weight >= Heaviest(Init(cands)) then Last(cands).weight
    else Heaviest(Init(cands))
  }

  ghost predicate EdgeWeights(g: Graph, cands: seq<Result>) {
    forall c :: c in cands ==> EdgeWeight(g, c.weight) && 0.0 < c.weight <= MAX_FLOAT64
  }

  /** k times t, one comparison at a time. */
  ghost function Loss(k: nat, t: real): (r: real)
    ensures t >= 0.0 ==> r >= 0.0
  {
    if k == 0 then 0.0 else Loss(k - 1, t) + t
  }

  lemma {:induction false} LossIsProduct(k: nat, t: real)
    ensures Loss(k, t) == k as real * t
  {
    if k > 0 {
      LossIsProduct(k - 1, t);
      assert k as real == (k - 1) as real + 1.0;
    }
  }

  lemma KeepOneMore(g: Graph, best: Result, c: Result, heaviest: real, loss: real)
    requires EdgeWeight(g, best.weight) && EdgeWeight(g, c.weight)
    requires best.weight <= MAX_FLOAT64 && c.weight <= MAX_FLOAT64
    requires best.weight >= heaviest - loss && loss >= 0.0
    ensures
      var kept := if BetterCandidate(best, c) then c else best;
      kept.weight >= heaviest - loss - Tolerance(g) && kept.weight >= c.weight - Tolerance(g)
  {
  }

  /** Keeping one of n candidates loses at most n - 1 tolerances against the heaviest. */
  lemma {:induction false} KeptLoss(g: Graph, cands: seq<Result>)
    requires cands != [] && EdgeWeights(g, cands)
    ensures Kept(cands).weight >= Heaviest(cands) - Loss(|cands| - 1, Tolerance(g))
  {
    if |cands| > 1 {
      var init := Init(cands);
      KeptLoss(g, init);
      assert Kept(init) in cands && Last(cands) in cands;
      KeepOneMore(g, Kept(init), Last(cands), Heaviest(init), Loss(|init| - 1, Tolerance(g)));
    }
  }

  /** When weights are separated the kept candidate is the freshest of the heaviest. */
  lemma {:induction false} KeptIsFreshestHeaviest(g: Graph, cands: seq<Result>)
    requires cands != [] && EdgeWeights(g, cands) && Separated(g)
    ensures forall c :: c in cands ==>
      c.weight < Kept(cands).weight || (c.weight == Kept(cands).weight && c.updatedAt <= Kept(cands).updatedAt)
  {
    if |cands| > 1 {
      var init, c := Init(cands), Last(cands);
      KeptIsFreshestHeaviest(g, init);
      assert cands == init + [c];
      assert Kept(init) in cands && c in cands;
      if c.weight <= Kept(init).weight + EQUAL_WEIGHT_EPSILON {
        TolerantCompare(g, c.weight, Kept(init).weight);
      }
      if Kept(init).weight <= c.weight + EQUAL_WEIGHT_EPSILON {
        TolerantCompare(g, Kept(init).weight, c.weight);
      }
    }
  }

  /** Candidates that are each fresher and one tolerance lighter than the one before. */
  ghost predicate Drifts(cands: seq<Result>, w: real) {
    forall i :: 0 <= i < |cands| ==>
      cands[i].weight == w - i as real * EQUAL_WEIGHT_EPSILON && cands[i].updatedAt == i + 1
  }

  /** Of such candidates the last and lightest is kept. */
  lemma {:induction false} LastOfDriftIsKept(cands: seq<Result>, w: real)
    requires cands != [] && Drifts(cands, w)
    ensures Kept(cands) == Last(cands)
    ensures Kept(cands).weight == cands[0].weight - (|cands| - 1) as real * EQUAL_WEIGHT_EPSILON
  {
    if |cands| > 1 {
      var n := |cands| - 1;
      LastOfDriftIsKept(Init(cands), w);
      assert (n - 1) as real + 1.0 == n as real;
      assert cands[n - 1].weight - cands[n].weight == EQUAL_WEIGHT_EPSILON;
    }
  }
}
