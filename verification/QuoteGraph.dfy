/** The directed quote graph: edges, their updates, and what any history of updates leaves behind. */
module QuoteGraph {

  /** Go's math.MaxFloat64; a real above it stands for +Inf. */
  const MAX_FLOAT64: real := 179769313486231570814527423731704356798070567525844996598917476803157260780028538760589558632766878171540458953514382464234321326889464182768467546703537516986049910576551282076245490090389328944075868508455133942304583236903222948165808559332123348274797826204144723168738177180919299881250404026184124858368.0

  const MIN_WEIGHT_EPSILON: real := 0.000000001
  const EQUAL_WEIGHT_EPSILON: real := 0.000001

  /** Go's zero time.Time, used as "no timestamp". */
  const ZERO_TIME := 0

  datatype Edge = Edge(price: real, weight: real, updatedAt: int)

  /** Adjacency by source address, then by target address. */
  type Graph = map<string, map<string, Edge>>

  predicate HasEdge(g: Graph, a: string, b: string) {
    a in g && b in g[a]
  }

  function EdgeAt(g: Graph, a: string, b: string): Edge
    requires HasEdge(g, a, b)
  {
    g[a][b]
  }

  /** The edges the search does not skip. */
  predicate Usable(g: Graph, a: string, b: string) {
    HasEdge(g, a, b) && EdgeAt(g, a, b).price > 0.0 && EdgeAt(g, a, b).weight > 0.0
  }

  /** Addresses an address has an outgoing edge to. */
  function Targets(g: Graph, a: string): set<string> {
    if a in g then g[a].Keys else {}
  }

  // ---------------------------------------------------------------- updates

  /** A stored quote gives way to one that is strictly fresher, or heavier by more than the tolerance. */
  predicate Accepts(g: Graph, from: string, to: string, weight: real, ts: int) {
    HasEdge(g, from, to) ==>
      ts > EdgeAt(g, from, to).updatedAt || weight > EdgeAt(g, from, to).weight + EQUAL_WEIGHT_EPSILON
  }

  function Put(g: Graph, from: string, to: string, e: Edge): (r: Graph)
    ensures HasEdge(r, from, to) && EdgeAt(r, from, to) == e
    ensures forall a, b :: (a, b) != (from, to) ==>
      HasEdge(r, a, b) == HasEdge(g, a, b) && (HasEdge(g, a, b) ==> EdgeAt(r, a, b) == EdgeAt(g, a, b))
  {
    g[from := (if from in g then g[from] else map[])[to := e]]
  }

  function Offer(g: Graph, from: string, to: string, e: Edge): Graph {
    if Accepts(g, from, to, e.weight, e.updatedAt) then Put(g, from, to, e) else g
  }

  /** A quote that reached the graph: addresses known, price positive, weight and time already defaulted. */
  datatype Quote = Quote(a: string, b: string, price: real, weight: real, ts: int)
  {
    ghost predicate Proper() {
      price > 0.0 && 0.0 < weight <= MAX_FLOAT64 && ts != ZERO_TIME
    }

    ghost predicate Touches(x: string, y: string) {
      (a == x && b == y) || (a == y && b == x)
    }

    /** The edge x -> y this quote stands for. */
    ghost function As(x: string, y: string): (e: Edge)
      requires Proper() && Touches(x, y)
      ensures e.weight == weight && e.updatedAt == ts
    {
      if a == x && b == y then Edge(price, weight, ts) else Edge(1.0 / price, weight, ts)
    }

    /** Two quotes of the same pair that differ only in the direction they are given in. */
    function Reversed(): Quote
      requires price > 0.0
    {
      Quote(b, a, 1.0 / price, weight, ts)
    }
  }

  function Apply(g: Graph, q: Quote): Graph
    requires q.price > 0.0
  {
    Offer(Offer(g, q.a, q.b, Edge(q.price, q.weight, q.ts)), q.b, q.a, Edge(1.0 / q.price, q.weight, q.ts))
  }

  /** The graph after a history of quotes, oldest first, starting from the empty graph. */
  ghost function Replay(log: seq<Quote>): Graph
    requires forall q :: q in log ==> q.Proper()
  {
    if log == [] then map[] else
      assert log[|log| - 1] in log && log[|log| - 1].Proper();
      Apply(Replay(log[..|log| - 1]), log[|log| - 1])
  }

  /** Stored weights are finite and stored times are set. */
  lemma {:induction false} ReplayBounded(log: seq<Quote>)
    requires forall q :: q in log ==> q.Proper()
    ensures forall a, b :: HasEdge(Replay(log), a, b) ==>
      EdgeAt(Replay(log), a, b).weight <= MAX_FLOAT64 && EdgeAt(Replay(log), a, b).updatedAt != ZERO_TIME
  {
    if log != [] {
      assert log[|log| - 1] in log;
      ReplayBounded(log[..|log| - 1]);
    }
  }

  // ---------------------------------------------------------------- reciprocity

  ghost predicate Reciprocal(g: Graph) {
    forall a, b :: HasEdge(g, a, b) ==>
      && HasEdge(g, b, a)
      && EdgeAt(g, a, b).price > 0.0
      && EdgeAt(g, a, b).price * EdgeAt(g, b, a).price == 1.0
      && EdgeAt(g, a, b).weight == EdgeAt(g, b, a).weight
      && EdgeAt(g, a, b).updatedAt == EdgeAt(g, b, a).updatedAt
  }

  /** In a reciprocal graph both directions accept or reject a quote together. */
  lemma ApplyDistinct(g: Graph, q: Quote)
    requires Reciprocal(g) && q.price > 0.0 && q.a != q.b
    ensures Accepts(g, q.a, q.b, q.weight, q.ts) == Accepts(g, q.b, q.a, q.weight, q.ts)
    ensures !Accepts(g, q.a, q.b, q.weight, q.ts) ==> Apply(g, q) == g
    ensures Accepts(g, q.a, q.b, q.weight, q.ts) ==>
      Apply(g, q) == Put(Put(g, q.a, q.b, Edge(q.price, q.weight, q.ts)), q.b, q.a, Edge(1.0 / q.price, q.weight, q.ts))
  {
  }

  /** One update keeps the graph reciprocal exactly when it is not an accepted self-quote off parity. */
  lemma ReciprocalKeptIff(g: Graph, q: Quote)
    requires Reciprocal(g) && q.price > 0.0
    ensures Reciprocal(Apply(g, q)) <==>
      (q.a != q.b || q.price == 1.0 || !Accepts(g, q.a, q.a, q.weight, q.ts))
  {
    if q.a != q.b {
      ApplyDistinct(g, q);
      assert q.price * (1.0 / q.price) == 1.0;
    } else if Accepts(g, q.a, q.a, q.weight, q.ts) {
      var r := Apply(g, q);
      assert HasEdge(r, q.a, q.a) && EdgeAt(r, q.a, q.a).price == q.price;
      if q.price != 1.0 {
        assert q.price * q.price != 1.0 by { SquareOne(q.price); }
      }
    }
  }

  lemma SquareOne(x: real)
    requires x > 0.0
    ensures x * x == 1.0 <==> x == 1.0
  {
  }

  /** Every history of quotes between distinct tokens leaves a reciprocal graph without self-edges. */
  lemma {:induction false} ReplayReciprocal(log: seq<Quote>)
    requires forall q :: q in log ==> q.Proper() && q.a != q.b
    ensures Reciprocal(Replay(log))
    ensures forall a :: !HasEdge(Replay(log), a, a)
  {
    if log != [] {
      var before := log[..|log| - 1];
      var q := log[|log| - 1];
      assert q in log;
      ReplayReciprocal(before);
      ReciprocalKeptIff(Replay(before), q);
      ApplyDistinct(Replay(before), q);
    }
  }

  /** Repeating a quote in the other direction, at the same weight and time, changes nothing. */
  lemma ReversedQuoteIsIdle(g: Graph, q: Quote)
    requires Reciprocal(g) && q.price > 0.0 && q.a != q.b
    ensures Apply(Apply(g, q), q.Reversed()) == Apply(g, q)
  {
  }

  // ---------------------------------------------------------------- histories

  /** Every stored edge is a submitted quote of its pair, whatever the order of timestamps. */
  lemma {:induction false} StoredEdgesWereQuoted(log: seq<Quote>, a: string, b: string)
    requires forall q :: q in log ==> q.Proper() && q.a != q.b
    ensures HasEdge(Replay(log), a, b) <==> exists i :: 0 <= i < |log| && log[i].Touches(a, b)
    ensures HasEdge(Replay(log), a, b) ==>
      exists i :: 0 <= i < |log| && log[i].Touches(a, b) && log[i].As(a, b) == EdgeAt(Replay(log), a, b)
  {
    hide Put, Offer, Apply;
    if log != [] {
      var n := |log| - 1;
      var before, q := log[..n], log[n];
      assert q in log;
      StoredEdgesWereQuoted(before, a, b);
      ReplayReciprocal(before);
      ApplyDistinct(Replay(before), q);
      forall i | 0 <= i < n ensures before[i] == log[i] {}
      if q.Touches(a, b) {
        if Accepts(Replay(before), q.a, q.b, q.weight, q.ts) {
          assert q.As(a, b) == EdgeAt(Replay(log), a, b);
        }
      } else {
        assert HasEdge(Replay(log), a, b) == HasEdge(Replay(before), a, b);
      }
    }
  }

  ghost predicate InTimeOrder(log: seq<Quote>) {
    forall i, j :: 0 <= i <= j < |log| ==> log[i].ts <= log[j].ts
  }

  /** The edge carries the latest time quoted for its pair and nearly the heaviest weight quoted then. */
  ghost predicate Current(log: seq<Quote>, a: string, b: string, e: Edge) {
    forall i :: 0 <= i < |log| && log[i].Touches(a, b) ==>
      && log[i].ts <= e.updatedAt
      && (log[i].ts == e.updatedAt ==> log[i].weight <= e.weight + EQUAL_WEIGHT_EPSILON)
  }

  /** One more quote of the pair keeps the edge current exactly when it is not older yet heavier. */
  lemma CurrentKeptIff(log: seq<Quote>, q: Quote, a: string, b: string)
    requires forall r :: r in log + [q] ==> r.Proper() && r.a != r.b
    requires q.Touches(a, b)
    requires HasEdge(Replay(log), a, b) && Current(log, a, b, EdgeAt(Replay(log), a, b))
    ensures HasEdge(Replay(log + [q]), a, b)
    ensures Current(log + [q], a, b, EdgeAt(Replay(log + [q]), a, b)) <==>
      !(q.ts < EdgeAt(Replay(log), a, b).updatedAt
        && q.weight > EdgeAt(Replay(log), a, b).weight + EQUAL_WEIGHT_EPSILON)
  {
    hide Replay, Quote.As;
    var all, e := log + [q], EdgeAt(Replay(log), a, b);
    EdgeAfterQuote(log, q, a, b);
    StoredEdgesWereQuoted(log, a, b);
    var i :| 0 <= i < |log| && log[i].Touches(a, b) && log[i].As(a, b) == e;
    assert all[i] == log[i] && all[|log|] == q;
    CurrentExtends(log, q, a, b, EdgeAt(Replay(all), a, b));
  }

  lemma CurrentExtends(log: seq<Quote>, q: Quote, a: string, b: string, e: Edge)
    ensures Current(log + [q], a, b, e) <==> Current(log, a, b, e) && Current([q], a, b, e)
  {
    var all := log + [q];
    assert all[|log|] == q && [q][0] == q;
    forall k | 0 <= k < |log| ensures all[k] == log[k] {}
  }

  /** What one quote of the pair does to the stored edge. */
  lemma EdgeAfterQuote(log: seq<Quote>, q: Quote, a: string, b: string)
    requires forall r :: r in log + [q] ==> r.Proper() && r.a != r.b
    requires q.Touches(a, b) && HasEdge(Replay(log), a, b)
    ensures HasEdge(Replay(log + [q]), a, b)
    ensures EdgeAt(Replay(log + [q]), a, b) ==
      var e := EdgeAt(Replay(log), a, b);
      if q.ts > e.updatedAt || q.weight > e.weight + EQUAL_WEIGHT_EPSILON then q.As(a, b) else e
  {
  }

  lemma ReplayStep(log: seq<Quote>, q: Quote)
    requires forall r :: r in log + [q] ==> r.Proper()
    ensures forall r :: r in log ==> r.Proper()
    ensures q.Proper() && Replay(log + [q]) == Apply(Replay(log), q)
  {
  }

  /** With timestamps in order, every stored edge is current. */
  lemma {:induction false} StoredEdgesAreCurrent(log: seq<Quote>, a: string, b: string)
    requires forall q :: q in log ==> q.Proper() && q.a != q.b
    requires InTimeOrder(log)
    ensures HasEdge(Replay(log), a, b) ==> Current(log, a, b, EdgeAt(Replay(log), a, b))
  {
    if log != [] {
      var n := |log| - 1;
      var before, q := log[..n], log[n];
      assert log == before + [q] && q in log;
      StoredEdgesAreCurrent(before, a, b);
      StoredEdgesWereQuoted(before, a, b);
      if q.Touches(a, b) && HasEdge(Replay(before), a, b) {
        CurrentKeptIff(before, q, a, b);
      } else {
        FirstOrForeignQuote(before, q, a, b);
      }
    }
  }

  lemma FirstOrForeignQuote(log: seq<Quote>, q: Quote, a: string, b: string)
    requires forall r :: r in log + [q] ==> r.Proper() && r.a != r.b
    requires HasEdge(Replay(log), a, b) ==> Current(log, a, b, EdgeAt(Replay(log), a, b))
    requires !(q.Touches(a, b) && HasEdge(Replay(log), a, b))
    ensures HasEdge(Replay(log + [q]), a, b) ==> Current(log + [q], a, b, EdgeAt(Replay(log + [q]), a, b))
  {
    hide Put, Offer, Apply;
    ReplayStep(log, q);
    ReplayReciprocal(log);
    ApplyDistinct(Replay(log), q);
    StoredEdgesWereQuoted(log, a, b);
    if HasEdge(Replay(log + [q]), a, b) {
      CurrentExtends(log, q, a, b, EdgeAt(Replay(log + [q]), a, b));
    }
  }

  /** Out of time order the promise fails: a heavier but older quote displaces a newer one. */
  lemma OlderHeavierQuoteWins(a: string, b: string)
    requires a != b
    ensures
      var log := [Quote(a, b, 2.0, 1.0, 20), Quote(a, b, 3.0, 5.0, 10)];
      HasEdge(Replay(log), a, b) && EdgeAt(Replay(log), a, b) == Edge(3.0, 5.0, 10)
      && !Current(log, a, b, EdgeAt(Replay(log), a, b))
  {
    var q0, q1 := Quote(a, b, 2.0, 1.0, 20), Quote(a, b, 3.0, 5.0, 10);
    var log := [q0, q1];
    assert log[..1] == [q0] && [q0][..0] == [];
    assert Replay([q0]) == Apply(map[], q0);
    assert Replay(log) == Apply(Replay([q0]), q1);
    assert log[0].Touches(a, b);
  }
}
