/** Tokens whose edges all lead to stables: exactly when the answer is the widest route, and what two anchors show. */
module OneHop {
  import opened Sequences
  import opened QuoteGraph
  import opened Routes
  import opened Search
  import opened GraphPricer

  /** Every edge of the token leads to a stable. */
  ghost predicate OneHopQuery(q: Query) {
    q.WellFormed() && forall v :: HasEdge(q.g, q.from, v) ==> v in q.stables
  }

  ghost function WeightTo(q: Query, v: string): real
    requires Usable(q.g, q.from, v)
  {
    EdgeAt(q.g, q.from, v).weight
  }

  ghost function TimeTo(q: Query, v: string): int
    requires Usable(q.g, q.from, v)
  {
    EdgeAt(q.g, q.from, v).updatedAt
  }

  ghost predicate IsHeaviest(q: Query, h: string) {
    Usable(q.g, q.from, h) && forall v :: Usable(q.g, q.from, v) ==> WeightTo(q, v) <= WeightTo(q, h)
  }

  /** An edge lighter than the heaviest one, by no more than the tolerance. */
  ghost predicate NearTie(q: Query, u: string, h: string)
    requires Usable(q.g, q.from, h)
  {
    Usable(q.g, q.from, u) && WeightTo(q, u) < WeightTo(q, h) <= WeightTo(q, u) + EQUAL_WEIGHT_EPSILON
  }

  /** Some heaviest edge is fresher than every near-tie. */
  ghost predicate HeaviestIsFresher(q: Query) {
    exists h :: IsHeaviest(q, h) && forall u :: NearTie(q, u, h) ==> TimeTo(q, u) < TimeTo(q, h)
  }

  /** A run of the search that has come to its end. */
  ghost predicate Ends(q: Query, symbols: map<string, string>, t: State) {
    t.queue == [] && exists orders :: Reaches(q, symbols, StartState(q.from), orders, t)
  }

  ghost predicate AnswersWidest(q: Query, t: State) {
    t.cands != [] && forall p :: q.Reachable(p) ==> Kept(t.cands).weight >= Bottleneck(q.g, p)
  }

  /** When every edge of the token leads to a stable, so does every route, at once. */
  lemma OneHopOnly(q: Query, p: seq<string>)
    requires (forall v :: HasEdge(q.g, q.from, v) ==> v in q.stables) && q.Reachable(p)
    ensures p == [q.from, Last(p)] && Usable(q.g, q.from, Last(p)) && Last(p) in q.stables
  {
    RouteConnected(q, p);
    assert HasEdge(q.g, p[0], p[1]);
    assert Init(p)[0] == p[0];
  }

  lemma OneHopRoute(q: Query, v: string)
    requires OneHopQuery(q) && Usable(q.g, q.from, v)
    ensures q.Reachable([q.from, v]) && Bottleneck(q.g, [q.from, v]) == WeightTo(q, v)
  {
    assert Init([q.from, v]) == [q.from] && q.Transit([q.from]);
    assert FinalEdge(q.g, [q.from, v]) == EdgeAt(q.g, q.from, v) && Bottleneck(q.g, [q.from]) == MAX_FLOAT64;
  }

  // ---------------------------------------------------------------- one expansion is the whole run

  ghost function FirstExpansion(q: Query, symbols: map<string, string>, order: seq<string>): State
    requires forall v :: v in order ==> HasEdge(q.g, q.from, v)
  {
    FollowAll(q, symbols, Dequeue(StartState(q.from)), StartItem(q.from), order)
  }

  /** One edge further: a usable one is compared with what has been kept. */
  lemma CompareOne(q: Query, symbols: map<string, string>, order: seq<string>)
    requires OneHopQuery(q) && order != [] && forall v :: v in order ==> HasEdge(q.g, q.from, v)
    ensures forall v :: v in Init(order) ==> HasEdge(q.g, q.from, v)
    ensures HasEdge(q.g, q.from, Last(order))
    ensures
      var s, t, v := FirstExpansion(q, symbols, Init(order)), FirstExpansion(q, symbols, order), Last(order);
      && t.queue == s.queue
      && if !Usable(q.g, q.from, v) then t == s
         else
           var c := CandidateOf(symbols, Extend(StartItem(q.from), v, EdgeAt(q.g, q.from, v)));
           && c.weight == WeightTo(q, v) && c.updatedAt == TimeTo(q, v) && t.cands != []
           && Kept(t.cands) == if s.cands == [] || BetterCandidate(Kept(s.cands), c) then c else Kept(s.cands)
  {
    assert Last(order) in order && forall v :: v in Init(order) ==> v in order;
    hide Kept, BetterCandidate;
    var s, v := FirstExpansion(q, symbols, Init(order)), Last(order);
    if Usable(q.g, q.from, v) {
      KeptAfterExamine(symbols, s, Extend(StartItem(q.from), v, EdgeAt(q.g, q.from, v)));
    }
  }

  lemma {:induction false} QueueStaysEmpty(q: Query, symbols: map<string, string>, order: seq<string>)
    requires OneHopQuery(q) && forall v :: v in order ==> HasEdge(q.g, q.from, v)
    ensures FirstExpansion(q, symbols, order).queue == []
  {
    if order != [] {
      CompareOne(q, symbols, order);
      QueueStaysEmpty(q, symbols, Init(order));
    }
  }

  lemma ExpandsStart(q: Query, symbols: map<string, string>, order: seq<string>, t: State)
    requires OneHopQuery(q)
    ensures Expands(q, symbols, StartState(q.from), order, t) <==>
      Enumerates(order, Targets(q.g, q.from)) && t == FirstExpansion(q, symbols, order)
    ensures Expands(q, symbols, StartState(q.from), order, t) ==> t.queue == []
  {
    if Expands(q, symbols, StartState(q.from), order, t) {
      QueueStaysEmpty(q, symbols, order);
    }
  }

  /** A run takes no step or one. */
  lemma {:induction false} AtMostOneStep(q: Query, symbols: map<string, string>, orders: seq<seq<string>>, t: State)
    requires OneHopQuery(q) && Reaches(q, symbols, StartState(q.from), orders, t)
    ensures |orders| <= 1 && (|orders| == 1 ==> t.queue == [] && Expands(q, symbols, StartState(q.from), orders[0], t))
    decreases |orders|
  {
    if orders != [] {
      var s :| Reaches(q, symbols, StartState(q.from), Init(orders), s) && Expands(q, symbols, s, Last(orders), t);
      AtMostOneStep(q, symbols, Init(orders), s);
      hide Expands, OneHopQuery;
      assert s.queue != [] by { ExpandsNonEmpty(q, symbols, s, Last(orders), t); }
      assert Init(orders) == [];
      ExpandsStart(q, symbols, Last(orders), t);
    }
  }

  lemma ExpandsNonEmpty(q: Query, symbols: map<string, string>, s: State, order: seq<string>, t: State)
    requires Expands(q, symbols, s, order, t)
    ensures s.queue != []
  {
  }

  // ---------------------------------------------------------------- fresher heaviest edges win

  /** What is kept is the candidate of the edge to `v`, as far as weight and time go. */
  ghost predicate KeepsEdge(q: Query, s: State, v: string) {
    && s.cands != [] && Usable(q.g, q.from, v)
    && Kept(s.cands).weight == WeightTo(q, v) && Kept(s.cands).updatedAt == TimeTo(q, v)
  }

  lemma EdgeKinds(q: Query, v: string, h: string)
    requires IsHeaviest(q, h) && Usable(q.g, q.from, v)
    ensures
      || NearTie(q, v, h) || WeightTo(q, v) == WeightTo(q, h)
      || WeightTo(q, v) + EQUAL_WEIGHT_EPSILON < WeightTo(q, h)
    ensures IsHeaviest(q, v) <==> WeightTo(q, v) == WeightTo(q, h)
  {
  }

  /** From the fresher heaviest edge on, a heaviest candidate is kept. */
  lemma {:induction false} FresherWins(q: Query, symbols: map<string, string>, order: seq<string>, h: string)
    requires OneHopQuery(q) && (forall v :: v in order ==> HasEdge(q.g, q.from, v)) && IsHeaviest(q, h)
    requires forall u :: NearTie(q, u, h) ==> TimeTo(q, u) < TimeTo(q, h)
    ensures
      var s := FirstExpansion(q, symbols, order);
      && (s.cands != [] ==> exists v :: KeepsEdge(q, s, v))
      && (h in order ==>
            s.cands != [] && Kept(s.cands).weight == WeightTo(q, h) && Kept(s.cands).updatedAt >= TimeTo(q, h))
  {
    hide Kept;
    if order != [] {
      CompareOne(q, symbols, order);
      FresherWins(q, symbols, Init(order), h);
      hide OneHopQuery, FirstExpansion;
      var s, v := FirstExpansion(q, symbols, Init(order)), Last(order);
      assert order == Init(order) + [v];
      if s.cands != [] && Usable(q.g, q.from, v) {
        var w :| KeepsEdge(q, s, w);
        EdgeKinds(q, v, h);
        EdgeKinds(q, w, h);
        assert KeepsEdge(q, FirstExpansion(q, symbols, order), v) || KeepsEdge(q, FirstExpansion(q, symbols, order), w);
      } else if Usable(q.g, q.from, v) {
        assert KeepsEdge(q, FirstExpansion(q, symbols, order), v);
      }
    }
  }

  // ---------------------------------------------------------------- fresher near-ties can win

  /** A near-tie first, then the heaviest edges, none of them fresher, then the rest. */
  ghost predicate TieFirst(q: Query, order: seq<string>, m: nat, u: string, h: string) {
    && IsHeaviest(q, h) && NearTie(q, u, h) && order != [] && order[0] == u && 1 <= m <= |order|
    && (forall i :: 1 <= i < m ==> IsHeaviest(q, order[i]) && TimeTo(q, order[i]) <= TimeTo(q, u))
    && forall i :: m <= i < |order| ==> !IsHeaviest(q, order[i])
  }

  /** In such an order the heaviest edges come too late to be fresher and too early to be clearly heavier. */
  lemma {:induction false} TieWins(q: Query, symbols: map<string, string>, order: seq<string>, m: nat, u: string,
                                   h: string, n: nat)
    requires OneHopQuery(q) && TieFirst(q, order, m, u, h) && 1 <= n <= |order|
    requires forall v :: v in order[..n] ==> HasEdge(q.g, q.from, v)
    ensures
      var s := FirstExpansion(q, symbols, order[..n]);
      s.cands != [] && Kept(s.cands).weight < WeightTo(q, h) && (n <= m ==> KeepsEdge(q, s, u))
  {
    hide Kept;
    CompareOne(q, symbols, order[..n]);
    assert Init(order[..n]) == order[..n - 1] && Last(order[..n]) == order[n - 1];
    if n == 1 {
      hide OneHopQuery;
      assert FirstExpansion(q, symbols, order[..0]).cands == [];
    } else {
      hide OneHopQuery, FirstExpansion;
      TieWins(q, symbols, order, m, u, h, n - 1);
      if n > m {
        if Usable(q.g, q.from, order[n - 1]) {
          EdgeKinds(q, order[n - 1], h);
        }
      }
    }
  }

  // ---------------------------------------------------------------- the two orders there are

  lemma {:induction false} Enumeration(all: set<string>) returns (order: seq<string>)
    ensures Enumerates(order, all)
    decreases all
  {
    order := [];
    if all != {} {
      var v :| v in all;
      order := Enumeration(all - {v});
      assert forall u :: u in [v] + order <==> u == v || u in order;
      order := [v] + order;
    }
  }

  lemma EnumerationOfThree(u: string, a: seq<string>, s: set<string>, b: seq<string>, t: set<string>)
    requires Enumerates(a, s) && Enumerates(b, t) && s !! t && u !in s && u !in t
    ensures Enumerates([u] + a + b, {u} + s + t)
  {
    var o := [u] + a + b;
    assert forall v :: v in o <==> v == u || v in a || v in b;
    forall i, j | 0 <= i < j < |o| ensures o[i] != o[j] {
      assert o[i] == if i == 0 then u else if i <= |a| then a[i - 1] else b[i - 1 - |a|];
      assert o[j] == if j <= |a| then a[j - 1] else b[j - 1 - |a|];
      assert i > 0 && i <= |a| ==> a[i - 1] in a;
      assert j <= |a| ==> a[j - 1] in a;
      assert j > |a| ==> b[j - 1 - |a|] in b;
    }
  }

  /** The edge is no heavier, and among equally heavy ones no fresher. */
  ghost predicate NoBetter(q: Query, v: string, h: string)
    requires Usable(q.g, q.from, v) && Usable(q.g, q.from, h)
  {
    WeightTo(q, v) < WeightTo(q, h) || (WeightTo(q, v) == WeightTo(q, h) && TimeTo(q, v) <= TimeTo(q, h))
  }

  lemma {:induction false} BestOf(q: Query, s: set<string>) returns (h: string)
    requires s != {} && forall v :: v in s ==> Usable(q.g, q.from, v)
    ensures h in s && forall v :: v in s ==> NoBetter(q, v, h)
    decreases s
  {
    var first :| first in s;
    var rest := s - {first};
    h := first;
    if rest != {} {
      var r := BestOf(q, rest);
      h := if NoBetter(q, first, r) then r else first;
    }
    forall v | v in s ensures NoBetter(q, v, h) { assert v == first || v in rest; }
  }

  /** A freshest heaviest edge. */
  lemma FreshestHeaviest(q: Query) returns (h: string)
    requires exists v :: Usable(q.g, q.from, v)
    ensures IsHeaviest(q, h) && forall v :: IsHeaviest(q, v) ==> TimeTo(q, v) <= TimeTo(q, h)
  {
    var all := set v | v in Targets(q.g, q.from) && Usable(q.g, q.from, v);
    var v :| Usable(q.g, q.from, v);
    assert v in all;
    h := BestOf(q, all);
    assert forall w :: Usable(q.g, q.from, w) ==> w in all && NoBetter(q, w, h);
  }

  /** When no heaviest edge is fresher than all near-ties, some order of the edges ends below the heaviest weight. */
  lemma TiedOrder(q: Query) returns (order: seq<string>, m: nat, u: string, h: string)
    requires OneHopQuery(q) && (exists v :: Usable(q.g, q.from, v)) && !HeaviestIsFresher(q)
    ensures Enumerates(order, Targets(q.g, q.from)) && TieFirst(q, order, m, u, h)
  {
    h := FreshestHeaviest(q);
    u :| NearTie(q, u, h) && TimeTo(q, u) >= TimeTo(q, h);
    assert !IsHeaviest(q, u) && u in Targets(q.g, q.from) by { EdgeKinds(q, u, h); }
    var heavy := set v | v in Targets(q.g, q.from) && IsHeaviest(q, v);
    hide IsHeaviest, NearTie, OneHopQuery, HeaviestIsFresher;
    var rest := Targets(q.g, q.from) - heavy - {u};
    var a := Enumeration(heavy);
    var b := Enumeration(rest);
    EnumerationOfThree(u, a, heavy, b, rest);
    order, m := [u] + a + b, 1 + |a|;
    HeavyAreTargets(q, heavy);
    assert {u} + heavy + rest == Targets(q.g, q.from);
    TieFirstHolds(q, u, a, b, h);
  }

  lemma TieFirstHolds(q: Query, u: string, a: seq<string>, b: seq<string>, h: string)
    requires IsHeaviest(q, h) && NearTie(q, u, h)
    requires forall v :: v in a ==> IsHeaviest(q, v) && TimeTo(q, v) <= TimeTo(q, u)
    requires forall v :: v in b ==> !IsHeaviest(q, v)
    ensures TieFirst(q, [u] + a + b, 1 + |a|, u, h)
  {
    hide IsHeaviest, NearTie;
    var order := [u] + a + b;
    forall i | 1 <= i < 1 + |a| ensures order[i] in a { assert order[i] == a[i - 1]; }
    forall i | 1 + |a| <= i < |order| ensures order[i] in b { assert order[i] == b[i - 1 - |a|]; }
  }

  lemma HeavyAreTargets(q: Query, heavy: set<string>)
    requires forall v :: v in heavy ==> v in Targets(q.g, q.from) && IsHeaviest(q, v)
    ensures heavy <= Targets(q.g, q.from)
  {
  }

  /** A token whose edges all lead to stables is answered the widest route in every iteration order exactly when some
      heaviest edge is strictly fresher than every edge lighter by at most the tolerance. */
  lemma AlwaysWidestIff(q: Query, symbols: map<string, string>)
    requires OneHopQuery(q) && exists v :: Usable(q.g, q.from, v)
    ensures (forall t :: Ends(q, symbols, t) ==> AnswersWidest(q, t)) <==> HeaviestIsFresher(q)
  {
    hide OneHopQuery, Reaches, FollowAll, Kept, IsHeaviest, NearTie;
    if HeaviestIsFresher(q) {
      forall t | Ends(q, symbols, t) ensures AnswersWidest(q, t) {
        FresherAnswersWidest(q, symbols, t);
      }
    } else {
      var t := TiedAnswersLighter(q, symbols);
    }
  }

  lemma FresherAnswersWidest(q: Query, symbols: map<string, string>, t: State)
    requires OneHopQuery(q) && HeaviestIsFresher(q) && Ends(q, symbols, t)
    ensures AnswersWidest(q, t)
  {
    hide Kept;
    var h :| IsHeaviest(q, h) && forall u :: NearTie(q, u, h) ==> TimeTo(q, u) < TimeTo(q, h);
    var orders :| Reaches(q, symbols, StartState(q.from), orders, t);
    AtMostOneStep(q, symbols, orders, t);
    assert orders != [];
    var order := orders[0];
    ExpandsStart(q, symbols, order, t);
    assert h in order;
    FresherWins(q, symbols, order, h);
    hide Reaches, Expands, FirstExpansion, Query.Reachable, Bottleneck;
    forall p | q.Reachable(p) ensures Kept(t.cands).weight >= Bottleneck(q.g, p) {
      OneHopOnly(q, p);
      OneHopRoute(q, Last(p));
    }
  }

  lemma TiedAnswersLighter(q: Query, symbols: map<string, string>) returns (t: State)
    requires OneHopQuery(q) && (exists v :: Usable(q.g, q.from, v)) && !HeaviestIsFresher(q)
    ensures Ends(q, symbols, t) && !AnswersWidest(q, t)
  {
    hide Kept, Reaches;
    var order, m, u, h := TiedOrder(q);
    assert order[..|order|] == order;
    t := FirstExpansion(q, symbols, order);
    ExpandsStart(q, symbols, order, t);
    TieWins(q, symbols, order, m, u, h, |order|);
    OneHopRoute(q, h);
    NoStep(q, symbols, StartState(q.from));
    ReachesOneMore(q, symbols, StartState(q.from), [], StartState(q.from), order, t);
    assert q.Reachable([q.from, h]);
  }

  // ---------------------------------------------------------------- two anchors, quoted by the connectors

  /** A token quoted against two anchors, the second one at the lighter weight. */
  datatype Pair = Pair(t: string, a: string, b: string, heavy: real, light: real, ta: int, tb: int) {

    ghost predicate Ok() {
      && t != a && t != b && a != b && 0.0 < light < heavy <= MAX_FLOAT64
      && ta != ZERO_TIME && tb != ZERO_TIME
    }

    function Quotes(): seq<Quote> {
      [Quote(t, a, 1.0, heavy, ta), Quote(t, b, 1.0, light, tb)]
    }

    /** The search for the token in the graph these quotes leave. */
    ghost function Search(): Query
      requires Ok()
    {
      Query(Replay(Quotes()), {a, b}, t, DEFAULT_MAX_HOPS)
    }

    function RouteA(): seq<string> {
      [t, a]
    }

    function RouteB(): seq<string> {
      [t, b]
    }
  }

  lemma EmptyGraph()
    ensures Replay([]) == map[]
  {
  }

  lemma PairEdges(pair: Pair)
    requires pair.Ok()
    ensures
      var g := pair.Search().g;
      && HasEdge(g, pair.t, pair.a) && EdgeAt(g, pair.t, pair.a) == Edge(1.0, pair.heavy, pair.ta)
      && HasEdge(g, pair.t, pair.b) && EdgeAt(g, pair.t, pair.b) == Edge(1.0, pair.light, pair.tb)
      && forall v :: HasEdge(g, pair.t, v) ==> v == pair.a || v == pair.b
  {
    hide Put, Replay;
    assert Replay([]) == map[] by { EmptyGraph(); }
    var q0 := Quote(pair.t, pair.a, 1.0, pair.heavy, pair.ta);
    var q1 := Quote(pair.t, pair.b, 1.0, pair.light, pair.tb);
    assert pair.Quotes() == [q0] + [q1] && [q0] == [] + [q0];
    ReplayStep([], q0);
    ReplayStep([q0], q1);
  }

  lemma PairQuotes(pair: Pair, symbols: map<string, string>)
    requires pair.Ok()
    ensures
      var x, y := QuoteOf(pair.Search().g, symbols, pair.RouteA()), QuoteOf(pair.Search().g, symbols, pair.RouteB());
      && x.weight == pair.heavy && x.updatedAt == pair.ta && y.weight == pair.light && y.updatedAt == pair.tb
  {
    PairEdges(pair);
    hide Replay;
    var g := pair.Search().g;
    assert FinalEdge(g, pair.RouteA()) == Edge(1.0, pair.heavy, pair.ta);
    assert FinalEdge(g, pair.RouteB()) == Edge(1.0, pair.light, pair.tb);
    assert Init(pair.RouteA()) == [pair.t] && Init(pair.RouteB()) == [pair.t];
    assert Bottleneck(g, [pair.t]) == MAX_FLOAT64;
  }

  /** Two distinct routes out of two possible ones are those two, in either order. */
  lemma BothExamined(examined: seq<seq<string>>, x: seq<string>, y: seq<string>)
    requires x != y && x in examined && y in examined
    requires forall i :: 0 <= i < |examined| ==> examined[i] == x || examined[i] == y
    requires forall i, j :: 0 <= i < j < |examined| ==> examined[i] != examined[j]
    ensures examined == [x, y] || examined == [y, x]
  {
    var third := if |examined| > 2 then examined[2] else x;
    assert third == x || third == y;
    var second := if |examined| > 1 then examined[1] else x;
    assert second == x || second == y;
    assert examined[0] == x || examined[0] == y;
  }

  lemma KeptOfTwo(x: Result, y: Result)
    ensures Kept([x, y]) == if BetterCandidate(x, y) then y else x
  {
  }

  lemma PairExamined(pair: Pair, examined: seq<seq<string>>)
    requires pair.Ok() && RoutesOk(pair.Search(), examined)
    requires pair.RouteA() in examined && pair.RouteB() in examined
    ensures examined == [pair.RouteA(), pair.RouteB()] || examined == [pair.RouteB(), pair.RouteA()]
  {
    PairEdges(pair);
    hide Replay, Query.Reachable, Simple;
    forall i | 0 <= i < |examined| ensures examined[i] == pair.RouteA() || examined[i] == pair.RouteB() {
      OneHopOnly(pair.Search(), examined[i]);
    }
    assert pair.RouteA()[1] != pair.RouteB()[1];
    BothExamined(examined, pair.RouteA(), pair.RouteB());
  }

  lemma QuotesOfTwo(q: Query, symbols: map<string, string>, r: seq<string>, r': seq<string>)
    ensures QuotesOf(q, symbols, [r, r']) == [QuoteOf(q.g, symbols, r), QuoteOf(q.g, symbols, r')]
  {
  }

  /** Between two anchors: the heavier route is the answer in every order if the weights are separated or it is fresher,
      the lighter one in every order if it is near and fresher, and of equally fresh near-ties the first compared. */
  lemma TwoAnchors(pair: Pair, symbols: map<string, string>, examined: seq<seq<string>>, res: Result, found: bool)
    requires pair.Ok() && Answers(pair.Search(), symbols, examined, res, found)
    ensures
      var near := pair.heavy <= pair.light + EQUAL_WEIGHT_EPSILON;
      && found && examined != []
      && (!near || pair.ta > pair.tb ==> res.weight == pair.heavy)
      && (near && pair.ta < pair.tb ==> res.weight == pair.light)
      && (near && pair.ta == pair.tb ==> res.weight == if examined[0] == pair.RouteA() then pair.heavy else pair.light)
  {
    var q := pair.Search();
    PairEdges(pair);
    assert Usable(q.g, pair.t, pair.a) && Usable(q.g, pair.t, pair.b);
    assert pair.a in q.stables && pair.b in q.stables && q.from == pair.t;
    PairQuotes(pair, symbols);
    assert pair.RouteA()[1] != pair.RouteB()[1];
    hide Pair.Search, Pair.Quotes, Replay, RoutesOk, Query.Reachable, Bottleneck, Loss, Tolerance, QuoteOf, QuotesOf,
      Kept, Usable;
    PairExamined(pair, examined);
    var x, y := QuoteOf(q.g, symbols, pair.RouteA()), QuoteOf(q.g, symbols, pair.RouteB());
    QuotesOfTwo(q, symbols, pair.RouteA(), pair.RouteB());
    QuotesOfTwo(q, symbols, pair.RouteB(), pair.RouteA());
    KeptOfTwo(x, y);
    KeptOfTwo(y, x);
  }
}
