/** The state of the breadth-first widest-path search and the invariants every step of it keeps. */
module Search {
  import opened Sequences
  import opened QuoteGraph
  import opened Routes

  datatype Item = Item(addr: string, price: real, weight: real, freshness: int, path: seq<string>, hops: int)

  datatype Visit = Visit(weight: real, hops: int)

  /** Go's zero visitInfo, read for an address that has not been visited. */
  const UNVISITED := Visit(0.0, 0)

  function VisitOf(visited: map<string, Visit>, a: string): Visit {
    if a in visited then visited[a] else UNVISITED
  }

  predicate ShouldVisit(prev: Visit, weight: real, hops: int) {
    weight > 0.0 &&
    (|| prev == UNVISITED
     || weight > prev.weight + EQUAL_WEIGHT_EPSILON
     || (-EQUAL_WEIGHT_EPSILON <= weight - prev.weight <= EQUAL_WEIGHT_EPSILON && hops < prev.hops))
  }

  /** The item reached from `cur` over the edge to `next`. */
  function Extend(cur: Item, next: string, e: Edge): Item {
    Item(next, cur.price * e.price, Min(cur.weight, e.weight),
         if cur.freshness != ZERO_TIME && cur.freshness < e.updatedAt then cur.freshness else e.updatedAt,
         cur.path + [next], cur.hops + 1)
  }

  // ---------------------------------------------------------------- what an item means

  ghost predicate ItemOk(q: Query, it: Item) {
    && q.Transit(it.path) && Last(it.path) == it.addr
    && it.hops == |it.path| - 1
    && it.price == Price(q.g, it.path) && it.price > 0.0
    && it.weight == Bottleneck(q.g, it.path) && 0.0 < it.weight <= MAX_FLOAT64
    && (it.weight == MAX_FLOAT64 || EdgeWeight(q.g, it.weight))
    && it.freshness == Oldest(q.g, it.path) && (|it.path| > 1 ==> it.freshness != ZERO_TIME)
    && Simple(it.path)
  }

  /** Every address of the item's path is visited, at no smaller weight. */
  ghost predicate Seen(it: Item, visited: map<string, Visit>) {
    forall i :: 0 <= i < |it.path| ==> it.path[i] in visited && visited[it.path[i]].weight >= it.weight
  }

  /** Following a usable edge yields exactly the quote of the longer walk. */
  lemma ExtendFollowsEdge(q: Query, cur: Item, next: string)
    requires q.WellFormed() && ItemOk(q, cur) && Usable(q.g, cur.addr, next)
    ensures
      var it := Extend(cur, next, EdgeAt(q.g, cur.addr, next));
      && Init(it.path) == cur.path && Last(it.path) == next
      && it.price == Price(q.g, it.path) && it.price > 0.0
      && it.weight == Bottleneck(q.g, it.path) && 0.0 < it.weight <= cur.weight
      && it.freshness == Oldest(q.g, it.path) && it.freshness != ZERO_TIME
      && EdgeWeight(q.g, it.weight) && it.weight <= MAX_FLOAT64
  {
  }

  // ---------------------------------------------------------------- the state of a search

  /** Queue, visited weights and examined candidates between two steps, with the routes the candidates
      were found along and the paths of the items already taken from the queue. */
  datatype State = State(queue: seq<Item>, visited: map<string, Visit>, cands: seq<Result>,
                         routes: seq<seq<string>>, popped: set<seq<string>>)

  /** The first `k` queued items are at hop count `level`, the rest one hop further; `snap` holds the
      visited weights at the moment the last item of `level` was queued. */
  datatype Frontier = Frontier(level: nat, k: nat, snap: map<string, real>)

  ghost predicate Queued(queue: seq<Item>, lo: nat, hi: nat, u: string, w: real) {
    exists i :: lo <= i < hi && i < |queue| && queue[i].addr == u && queue[i].weight == w
  }

  ghost predicate QueueOk(q: Query, f: Frontier, s: State) {
    && f.level < q.Bound() && f.k <= |s.queue|
    && forall i :: 0 <= i < |s.queue| ==>
      && ItemOk(q, s.queue[i]) && Seen(s.queue[i], s.visited)
      && s.queue[i].hops == (if i < f.k then f.level else f.level + 1)
      && s.queue[i].hops < q.Bound()
  }

  ghost predicate VisitedOk(q: Query, f: Frontier, s: State) {
    && (forall x :: x in s.visited ==>
      && 0.0 < s.visited[x].weight && s.visited[x].hops <= f.level + 1
      && (s.visited[x].weight == MAX_FLOAT64 || EdgeWeight(q.g, s.visited[x].weight)))
    && (forall u :: u in f.snap ==> u in s.visited && f.snap[u] <= s.visited[u].weight)
    && (forall u :: u in s.visited ==>
      (u in f.snap && f.snap[u] == s.visited[u].weight) || Queued(s.queue, f.k, |s.queue|, u, s.visited[u].weight))
  }

  /** The quotes of a list of routes. */
  ghost function QuotesOf(q: Query, symbols: map<string, string>, routes: seq<seq<string>>): (r: seq<Result>)
    ensures |r| == |routes|
    ensures forall i :: 0 <= i < |routes| ==> r[i] == QuoteOf(q.g, symbols, routes[i])
  {
    seq(|routes|, i requires 0 <= i < |routes| => QuoteOf(q.g, symbols, routes[i]))
  }

  /** Distinct simple routes within the hop limit. */
  ghost predicate RoutesOk(q: Query, routes: seq<seq<string>>) {
    && (forall i :: 0 <= i < |routes| ==> q.Reachable(routes[i]) && Simple(routes[i]))
    && (forall i, j :: 0 <= i < j < |routes| ==> routes[i] != routes[j])
  }

  /** Candidates are the quotes of the routes. */
  ghost predicate CandsOk(q: Query, symbols: map<string, string>, s: State) {
    EdgeWeights(q.g, s.cands) && RoutesOk(q, s.routes) && s.cands == QuotesOf(q, symbols, s.routes)
  }

  /** Every path was built by extending a popped one, and no path is queued or popped twice. */
  ghost predicate PathsOk(f: Frontier, s: State) {
    && (forall p :: p in s.popped ==> |p| <= f.level + 1)
    && (forall i :: 0 <= i < |s.queue| ==>
          s.queue[i].path != [] && s.queue[i].path !in s.popped
          && (|s.queue[i].path| > 1 ==> Init(s.queue[i].path) in s.popped))
    && (forall i, j :: 0 <= i < j < |s.queue| ==> s.queue[i].path != s.queue[j].path)
    && (forall i :: 0 <= i < |s.routes| ==> |s.routes[i]| > 1 && Init(s.routes[i]) in s.popped)
  }

  /** Only addresses in `done` have been appended to `path` so far. */
  ghost predicate ExtendedBy(s: State, path: seq<string>, done: set<string>) {
    && path in s.popped
    && (forall i :: 0 <= i < |s.queue| && |s.queue[i].path| > 1 && Init(s.queue[i].path) == path ==>
          Last(s.queue[i].path) in done)
    && (forall i :: 0 <= i < |s.routes| && |s.routes[i]| > 1 && Init(s.routes[i]) == path ==>
          Last(s.routes[i]) in done)
  }

  /** The token's own edges into stables among `done` have been compared. */
  ghost predicate Direct(q: Query, s: State, done: set<string>) {
    forall v :: v in done && Usable(q.g, q.from, v) && v in q.stables ==> [q.from, v] in s.routes
  }

  /** Once the token itself has been expanded, all its own edges into stables have been compared. */
  ghost predicate DirectOk(q: Query, s: State, busy: bool) {
    if s.popped == {} then s.queue != [] else Direct(q, s, Targets(q.g, q.from)) || (busy && s.popped == {[q.from]})
  }

  /** The token's own edges are followed exactly; further ones up to one tolerance. */
  ghost function Slack(q: Query, level: nat): (t: real)
    ensures 0.0 <= t <= Tolerance(q.g)
  {
    if level == 0 then 0.0 else Tolerance(q.g)
  }

  /** The edges from `u` to `done`, taken at weight `w`, have had their effect up to the slack of the level. */
  ghost predicate Relaxed(q: Query, f: Frontier, s: State, u: string, w: real, done: set<string>) {
    forall v :: v in done && Usable(q.g, u, v) ==>
      var nw := Min(w, EdgeAt(q.g, u, v).weight);
      if v in q.stables then Heaviest(s.cands) >= nw
      else f.level + 1 < q.Bound() ==> v in s.visited && s.visited[v].weight >= nw - Slack(q, f.level)
  }

  /** Every snapshot weight is relaxed, waiting in the queue, or being expanded. */
  ghost predicate Progress(q: Query, f: Frontier, s: State, expanding: set<(string, real)>) {
    forall u :: u in f.snap ==>
      || Relaxed(q, f, s, u, f.snap[u], Targets(q.g, u))
      || Queued(s.queue, 0, f.k, u, f.snap[u])
      || (u, f.snap[u]) in expanding
  }

  /** The edges of a walk, or of a route before its last, that can each cost one tolerance: all but the first. */
  function Inexact(edges: nat): nat {
    if edges < 1 then 0 else edges - 1
  }

  /** The snapshot covers every transit walk of at most `level` edges, one tolerance lost per edge but the first. */
  ghost predicate Covers(q: Query, snap: map<string, real>, level: nat) {
    forall p :: q.Transit(p) && |p| - 1 <= level ==>
      Last(p) in snap && snap[Last(p)] >= Bottleneck(q.g, p) - Loss(Inexact(|p| - 1), Tolerance(q.g))
  }

  /** Before the token is expanded nothing else is visited, and it is visited at the largest weight. */
  ghost predicate StartOk(f: Frontier, s: State) {
    f.level == 0 ==> f.k <= 1 && (f.k == 1 ==> forall x :: x in s.visited ==> s.visited[x].weight == MAX_FLOAT64)
  }

  /** While the token is expanded, so are only the ends of its edges to `done`. */
  ghost predicate OnlyStart(f: Frontier, s: State, done: set<string>) {
    f.level == 0 ==> f.k == 0 && forall x :: x in s.visited && x !in done ==> s.visited[x].weight == MAX_FLOAT64
  }

  ghost predicate Inv(q: Query, symbols: map<string, string>, f: Frontier, s: State, expanding: set<(string, real)>) {
    && QueueOk(q, f, s) && VisitedOk(q, f, s) && CandsOk(q, symbols, s) && PathsOk(f, s)
    && Progress(q, f, s, expanding) && DirectOk(q, s, expanding != {}) && StartOk(f, s)
  }

  /** The item being expanded, with its edges to `done` already followed. */
  ghost predicate Expanding(q: Query, f: Frontier, s: State, cur: Item, done: set<string>) {
    && ItemOk(q, cur) && Seen(cur, s.visited) && cur.hops == f.level
    && Relaxed(q, f, s, cur.addr, cur.weight, done) && OnlyStart(f, s, done)
    && ExtendedBy(s, cur.path, done) && (s.popped == {[q.from]} ==> cur.path == [q.from] && Direct(q, s, done))
  }

  // ---------------------------------------------------------------- the FIFO level invariant at work

  /** At its level the search never takes the "fewer hops" clause: only new or clearly heavier visits
      count, and the zero visitInfo means exactly that there was none. */
  lemma OnlyHeavierIsRevisited(q: Query, f: Frontier, s: State, v: string, w: real)
    requires VisitedOk(q, f, s) && w > 0.0
    ensures ShouldVisit(VisitOf(s.visited, v), w, f.level + 1) <==>
      v !in s.visited || w > s.visited[v].weight + EQUAL_WEIGHT_EPSILON
    ensures VisitOf(s.visited, v) == UNVISITED <==> v !in s.visited
  {
  }

  /** Growing visited weights and candidates undoes no progress. */
  lemma RelaxedGrows(q: Query, f: Frontier, s: State, t: State, u: string, w: real, done: set<string>)
    requires Relaxed(q, f, s, u, w, done)
    requires Heaviest(s.cands) <= Heaviest(t.cands)
    requires forall x :: x in s.visited ==> x in t.visited && s.visited[x].weight <= t.visited[x].weight
    ensures Relaxed(q, f, t, u, w, done)
  {
  }

  lemma ProgressGrows(q: Query, f: Frontier, s: State, t: State, expanding: set<(string, real)>)
    requires Progress(q, f, s, expanding) && f.k <= |s.queue|
    requires s.queue <= t.queue
    requires Heaviest(s.cands) <= Heaviest(t.cands)
    requires forall x :: x in s.visited ==> x in t.visited && s.visited[x].weight <= t.visited[x].weight
    ensures Progress(q, f, t, expanding)
  {
  }

  // ---------------------------------------------------------------- the branches of one step

  /** An edge that is skipped, and an edge to an address not worth visiting, change nothing. */
  lemma SkipEdge(q: Query, symbols: map<string, string>, f: Frontier, s: State, cur: Item, done: set<string>, v: string)
    requires q.WellFormed() && VisitedOk(q, f, s) && Expanding(q, f, s, cur, done)
    requires Usable(q.g, cur.addr, v) ==>
      && v !in q.stables
      && (f.level + 1 < q.Bound() ==>
            !ShouldVisit(VisitOf(s.visited, v), Min(cur.weight, EdgeAt(q.g, cur.addr, v).weight), f.level + 1))
    ensures Expanding(q, f, s, cur, done + {v})
  {
    if Usable(q.g, cur.addr, v) && f.level + 1 < q.Bound() {
      ExtendFollowsEdge(q, cur, v);
      var nw := Min(cur.weight, EdgeAt(q.g, cur.addr, v).weight);
      OnlyHeavierIsRevisited(q, f, s, v, nw);
      TolerantCompare(q.g, nw, s.visited[v].weight);
    }
  }

  function CandidateOf(symbols: map<string, string>, it: Item): Result {
    Result(it.price, SymbolPath(symbols, it.path), it.weight, it.freshness)
  }

  function Examine(symbols: map<string, string>, s: State, it: Item): State {
    s.(cands := s.cands + [CandidateOf(symbols, it)], routes := s.routes + [it.path])
  }

  function Enqueue(s: State, it: Item): State {
    s.(queue := s.queue + [it], visited := s.visited[it.addr := Visit(it.weight, it.hops)])
  }

  /** An extension into a stable is a simple route within the hop limit. */
  lemma ExtensionIsRoute(q: Query, symbols: map<string, string>, f: Frontier, s: State, cur: Item, v: string)
    requires q.WellFormed() && ItemOk(q, cur) && cur.hops < q.Bound()
    requires Usable(q.g, cur.addr, v) && v in q.stables
    ensures
      var it := Extend(cur, v, EdgeAt(q.g, cur.addr, v));
      q.Reachable(it.path) && Simple(it.path) && CandidateOf(symbols, it) == QuoteOf(q.g, symbols, it.path)
  {
    var it := Extend(cur, v, EdgeAt(q.g, cur.addr, v));
    ExtendFollowsEdge(q, cur, v);
    TransitConnected(q, cur.path);
    assert q.Reachable(it.path);
    assert Simple(it.path);
  }

  /** A candidate reached over a fresh edge is a fresh route. */
  lemma ExamineKeepsPaths(f: Frontier, s: State, symbols: map<string, string>, it: Item, path: seq<string>,
                          done: set<string>, v: string)
    requires path != [] && it.path == path + [v] && v !in done
    requires PathsOk(f, s) && ExtendedBy(s, path, done)
    ensures forall i :: 0 <= i < |s.routes| ==> s.routes[i] != it.path
    ensures PathsOk(f, Examine(symbols, s, it)) && ExtendedBy(Examine(symbols, s, it), path, done + {v})
  {
    assert Init(it.path) == path && Last(it.path) == v;
  }

  lemma ExamineKeepsDirect(q: Query, symbols: map<string, string>, s: State, it: Item, path: seq<string>,
                           done: set<string>, v: string, busy: bool)
    requires it.path == path + [v] && DirectOk(q, s, busy)
    requires s.popped == {[q.from]} ==> path == [q.from] && Direct(q, s, done)
    ensures DirectOk(q, Examine(symbols, s, it), busy)
    ensures s.popped == {[q.from]} ==> Direct(q, Examine(symbols, s, it), done + {v})
  {
    var t := Examine(symbols, s, it);
    assert t.routes[|s.routes|] == it.path && [q.from] + [v] == [q.from, v];
    assert forall r :: r in s.routes ==> r in t.routes;
  }

  lemma EnqueueKeepsPaths(f: Frontier, s: State, it: Item, path: seq<string>, done: set<string>, v: string)
    requires it.path == path + [v] && v !in done && |path| == f.level + 1
    requires PathsOk(f, s) && ExtendedBy(s, path, done)
    ensures PathsOk(f, Enqueue(s, it)) && ExtendedBy(Enqueue(s, it), path, done + {v})
  {
    assert Init(it.path) == path && Last(it.path) == v;
  }

  /** An edge into a stable adds a candidate. */
  lemma AddCandidate(q: Query, symbols: map<string, string>, f: Frontier, s: State, cur: Item,
                     done: set<string>, v: string, expanding: set<(string, real)>)
    requires q.WellFormed() && Inv(q, symbols, f, s, expanding) && Expanding(q, f, s, cur, done)
    requires Usable(q.g, cur.addr, v) && v in q.stables && v !in done
    ensures
      var t := Examine(symbols, s, Extend(cur, v, EdgeAt(q.g, cur.addr, v)));
      Inv(q, symbols, f, t, expanding) && Expanding(q, f, t, cur, done + {v})
  {
    hide Seen, EdgeWeight, VisitedOk, QueueOk, Queued, CandsOk, PathsOk, ExtendedBy,
      Direct, DirectOk, Query.Reachable, Simple, OnlyStart, StartOk;
    var it := Extend(cur, v, EdgeAt(q.g, cur.addr, v));
    var t := Examine(symbols, s, it);
    ExamineKeepsStart(f, s, symbols, it, done, v);
    QueueSize(q, f, s);
    ExtendFollowsEdge(q, cur, v);
    ExtensionIsRoute(q, symbols, f, s, cur, v);
    ExamineKeepsPaths(f, s, symbols, it, cur.path, done, v);
    ExamineKeepsDirect(q, symbols, s, it, cur.path, done, v, expanding != {});
    ExamineKeepsRest(q, symbols, f, s, it);
    ProgressGrows(q, f, s, t, expanding);
    RelaxedGrows(q, f, s, t, cur.addr, cur.weight, done);
  }

  lemma ExamineKeepsStart(f: Frontier, s: State, symbols: map<string, string>, it: Item, done: set<string>, v: string)
    requires StartOk(f, s) && OnlyStart(f, s, done)
    ensures StartOk(f, Examine(symbols, s, it)) && OnlyStart(f, Examine(symbols, s, it), done + {v})
  {
  }

  lemma ExamineKeepsRest(q: Query, symbols: map<string, string>, f: Frontier, s: State, it: Item)
    requires QueueOk(q, f, s) && VisitedOk(q, f, s) && CandsOk(q, symbols, s)
    requires q.Reachable(it.path) && Simple(it.path) && CandidateOf(symbols, it) == QuoteOf(q.g, symbols, it.path)
    requires forall i :: 0 <= i < |s.routes| ==> s.routes[i] != it.path
    requires EdgeWeight(q.g, it.weight) && 0.0 < it.weight <= MAX_FLOAT64
    ensures
      var t := Examine(symbols, s, it);
      && QueueOk(q, f, t) && VisitedOk(q, f, t) && CandsOk(q, symbols, t)
      && Heaviest(s.cands) <= Heaviest(t.cands) && Heaviest(t.cands) >= it.weight
  {
    hide ItemOk, Seen, EdgeWeight, QuoteOf, Query.Reachable, Simple;
    var t := Examine(symbols, s, it);
    assert Init(t.cands) == s.cands && Last(t.cands) == CandidateOf(symbols, it);
  }

  /** A visited address never gets lighter, and an address on the current path is never visited again. */
  lemma VisitIsNew(q: Query, f: Frontier, s: State, cur: Item, v: string)
    requires q.WellFormed() && VisitedOk(q, f, s) && ItemOk(q, cur) && Seen(cur, s.visited)
    requires Usable(q.g, cur.addr, v)
    requires ShouldVisit(VisitOf(s.visited, v), Min(cur.weight, EdgeAt(q.g, cur.addr, v).weight), f.level + 1)
    ensures v !in cur.path
    ensures v in s.visited ==> s.visited[v].weight < Min(cur.weight, EdgeAt(q.g, cur.addr, v).weight)
  {
  }

  lemma SeenGrows(it: Item, s: State, n: Item)
    requires Seen(it, s.visited)
    requires n.addr in s.visited ==> s.visited[n.addr].weight <= n.weight
    ensures Seen(it, Enqueue(s, n).visited)
  {
  }

  lemma EnqueuedItemOk(q: Query, f: Frontier, s: State, cur: Item, v: string)
    requires q.WellFormed() && VisitedOk(q, f, s) && ItemOk(q, cur) && Seen(cur, s.visited)
    requires Usable(q.g, cur.addr, v) && v !in q.stables
    requires ShouldVisit(VisitOf(s.visited, v), Min(cur.weight, EdgeAt(q.g, cur.addr, v).weight), f.level + 1)
    ensures
      var it := Extend(cur, v, EdgeAt(q.g, cur.addr, v));
      ItemOk(q, it) && Seen(it, Enqueue(s, it).visited)
  {
    ExtendFollowsEdge(q, cur, v);
    VisitIsNew(q, f, s, cur, v);
    SeenGrows(cur, s, Extend(cur, v, EdgeAt(q.g, cur.addr, v)));
  }

  lemma EnqueueKeepsQueue(q: Query, f: Frontier, s: State, it: Item)
    requires QueueOk(q, f, s) && ItemOk(q, it) && Seen(it, Enqueue(s, it).visited)
    requires it.hops == f.level + 1 < q.Bound()
    requires it.addr in s.visited ==> s.visited[it.addr].weight <= it.weight
    ensures QueueOk(q, f, Enqueue(s, it))
  {
    hide ItemOk, Seen;
    var t := Enqueue(s, it);
    forall i | 0 <= i < |s.queue|
      ensures Seen(t.queue[i], t.visited)
    {
      SeenGrows(s.queue[i], s, it);
    }
  }

  lemma EnqueueKeepsVisited(q: Query, f: Frontier, s: State, it: Item)
    requires VisitedOk(q, f, s) && f.k <= |s.queue|
    requires 0.0 < it.weight && it.hops == f.level + 1
    requires it.weight == MAX_FLOAT64 || EdgeWeight(q.g, it.weight)
    requires it.addr in s.visited ==> s.visited[it.addr].weight <= it.weight
    ensures VisitedOk(q, f, Enqueue(s, it))
  {
    hide EdgeWeight;
    var t := Enqueue(s, it);
    forall u | u in t.visited
      ensures
        || (u in f.snap && f.snap[u] == t.visited[u].weight)
        || Queued(t.queue, f.k, |t.queue|, u, t.visited[u].weight)
    {
      if u == it.addr {
        assert t.queue[|s.queue|] == it;
      } else if Queued(s.queue, f.k, |s.queue|, u, s.visited[u].weight) {
        var i :| f.k <= i < |s.queue| && s.queue[i].addr == u && s.queue[i].weight == s.visited[u].weight;
        assert t.queue[i] == s.queue[i];
      }
    }
  }

  lemma EnqueueKeepsStart(f: Frontier, s: State, it: Item, done: set<string>)
    requires OnlyStart(f, s, done)
    ensures StartOk(f, Enqueue(s, it)) && OnlyStart(f, Enqueue(s, it), done + {it.addr})
  {
  }

  lemma EnqueueKeepsDirect(q: Query, s: State, it: Item, path: seq<string>, done: set<string>, v: string, busy: bool)
    requires DirectOk(q, s, busy) && v !in q.stables
    requires s.popped == {[q.from]} ==> Direct(q, s, done)
    ensures DirectOk(q, Enqueue(s, it), busy)
    ensures s.popped == {[q.from]} ==> Direct(q, Enqueue(s, it), done + {v})
  {
  }

  /** An edge to an address worth visiting queues it one hop further. */
  lemma AddVisit(q: Query, symbols: map<string, string>, f: Frontier, s: State, cur: Item,
                 done: set<string>, v: string, expanding: set<(string, real)>)
    requires q.WellFormed() && Inv(q, symbols, f, s, expanding) && Expanding(q, f, s, cur, done)
    requires Usable(q.g, cur.addr, v) && v !in q.stables && f.level + 1 < q.Bound() && v !in done
    requires ShouldVisit(VisitOf(s.visited, v), Min(cur.weight, EdgeAt(q.g, cur.addr, v).weight), f.level + 1)
    ensures
      var t := Enqueue(s, Extend(cur, v, EdgeAt(q.g, cur.addr, v)));
      Inv(q, symbols, f, t, expanding) && Expanding(q, f, t, cur, done + {v})
  {
    hide Seen, EdgeWeight, VisitedOk, QueueOk, Queued, CandsOk, PathsOk, ExtendedBy, Direct, DirectOk;
    var it := Extend(cur, v, EdgeAt(q.g, cur.addr, v));
    var t := Enqueue(s, it);
    EnqueueKeepsDirect(q, s, it, cur.path, done, v, expanding != {});
    EnqueueKeepsStart(f, s, it, done);
    hide OnlyStart, StartOk;
    ExtendFollowsEdge(q, cur, v);
    VisitIsNew(q, f, s, cur, v);
    EnqueuedItemOk(q, f, s, cur, v);
    assert f.k <= |s.queue| by { QueueSize(q, f, s); }
    EnqueueKeepsQueue(q, f, s, it);
    EnqueueKeepsVisited(q, f, s, it);
    assert CandsOk(q, symbols, t) by { SameCands(q, symbols, s, t); }
    EnqueueKeepsPaths(f, s, it, cur.path, done, v);
    SeenGrows(cur, s, it);
    ProgressGrows(q, f, s, t, expanding);
    RelaxedGrows(q, f, s, t, cur.addr, cur.weight, done);
  }

  /** The state after following the edge to `v`. */
  ghost function Follow(q: Query, symbols: map<string, string>, s: State, cur: Item, v: string): State
    requires HasEdge(q.g, cur.addr, v)
  {
    var it := Extend(cur, v, EdgeAt(q.g, cur.addr, v));
    if !Usable(q.g, cur.addr, v) then s
    else if v in q.stables then Examine(symbols, s, it)
    else if it.hops >= q.maxHops || !ShouldVisit(VisitOf(s.visited, v), it.weight, it.hops) then s
    else Enqueue(s, it)
  }

  /** Following any edge of the expanded item keeps every invariant. */
  lemma FollowKeeps(q: Query, symbols: map<string, string>, f: Frontier, s: State, cur: Item,
                    done: set<string>, v: string, expanding: set<(string, real)>)
    requires q.WellFormed() && Inv(q, symbols, f, s, expanding) && Expanding(q, f, s, cur, done)
    requires HasEdge(q.g, cur.addr, v) && v !in done
    ensures
      var t := Follow(q, symbols, s, cur, v);
      && Inv(q, symbols, f, t, expanding) && Expanding(q, f, t, cur, done + {v})
      && cur.price > 0.0 && cur.weight > 0.0
  {
    hide Query.WellFormed, Query.Transit, Seen, PathsOk, ExtendedBy, CandsOk, Progress, ShouldVisit, Simple, Relaxed,
      Price, Bottleneck, Oldest, EdgeWeight, Examine, Enqueue;
    assert cur.hops == f.level < q.Bound();
    if !Usable(q.g, cur.addr, v) {
      SkipEdge(q, symbols, f, s, cur, done, v);
    } else if v in q.stables {
      AddCandidate(q, symbols, f, s, cur, done, v, expanding);
    } else if cur.hops + 1 >= q.maxHops
              || !ShouldVisit(VisitOf(s.visited, v), Min(cur.weight, EdgeAt(q.g, cur.addr, v).weight), cur.hops + 1) {
      SkipEdge(q, symbols, f, s, cur, done, v);
    } else {
      AddVisit(q, symbols, f, s, cur, done, v, expanding);
    }
  }

  // ---------------------------------------------------------------- whole runs

  /** Every member of the set once, in some order. */
  ghost predicate Enumerates(order: seq<string>, all: set<string>) {
    && (forall v :: v in order <==> v in all)
    && forall i, j :: 0 <= i < j < |order| ==> order[i] != order[j]
  }

  /** The state after following an item's edges in the given order. */
  ghost function FollowAll(q: Query, symbols: map<string, string>, s: State, cur: Item, order: seq<string>): State
    requires forall v :: v in order ==> HasEdge(q.g, cur.addr, v)
  {
    if order == [] then s
    else
      assert Last(order) in order;
      Follow(q, symbols, FollowAll(q, symbols, s, cur, Init(order)), cur, Last(order))
  }

  lemma FollowOneMore(q: Query, symbols: map<string, string>, s: State, cur: Item, order: seq<string>, v: string,
                      done: set<string>)
    requires Enumerates(order, done) && v !in done
    requires forall u :: u in done + {v} ==> HasEdge(q.g, cur.addr, u)
    ensures Enumerates(order + [v], done + {v})
    ensures FollowAll(q, symbols, s, cur, order + [v]) ==
      Follow(q, symbols, FollowAll(q, symbols, s, cur, order), cur, v)
  {
    hide Follow;
    assert Init(order + [v]) == order;
  }

  /** A search goes from `s0` to `t` by expanding as many items as there are orders, each the head of the queue. */
  ghost predicate Reaches(q: Query, symbols: map<string, string>, s0: State, orders: seq<seq<string>>, t: State)
    decreases |orders|
  {
    if orders == [] then t == s0
    else exists s :: Reaches(q, symbols, s0, Init(orders), s) && Expands(q, symbols, s, Last(orders), t)
  }

  ghost predicate Expands(q: Query, symbols: map<string, string>, s: State, order: seq<string>, t: State) {
    && s.queue != [] && Enumerates(order, Targets(q.g, s.queue[0].addr))
    && t == FollowAll(q, symbols, Dequeue(s), s.queue[0], order)
  }

  lemma ReachesOneMore(q: Query, symbols: map<string, string>, s0: State, orders: seq<seq<string>>, s: State,
                       order: seq<string>, t: State)
    requires Reaches(q, symbols, s0, orders, s) && Expands(q, symbols, s, order, t)
    ensures Reaches(q, symbols, s0, orders + [order], t)
  {
    hide Expands;
    assert Init(orders + [order]) == orders;
  }

  /** One more candidate is kept only if it is better. */
  lemma KeptAfterExamine(symbols: map<string, string>, s: State, it: Item)
    ensures Kept(Examine(symbols, s, it).cands) ==
      if s.cands == [] || BetterCandidate(Kept(s.cands), CandidateOf(symbols, it)) then CandidateOf(symbols, it)
      else Kept(s.cands)
  {
  }

  lemma SameCands(q: Query, symbols: map<string, string>, s: State, t: State)
    requires CandsOk(q, symbols, s) && t.cands == s.cands && t.routes == s.routes
    ensures CandsOk(q, symbols, t)
  {
  }

  lemma QueueSize(q: Query, f: Frontier, s: State)
    requires QueueOk(q, f, s)
    ensures f.k <= |s.queue| && f.level < q.Bound()
  {
  }

  // ---------------------------------------------------------------- levels

  function Weights(visited: map<string, Visit>): map<string, real> {
    map x | x in visited :: visited[x].weight
  }

  function StartItem(from: string): Item {
    Item(from, 1.0, MAX_FLOAT64, ZERO_TIME, [from], 0)
  }

  function StartState(from: string): State {
    State([StartItem(from)], map[from := Visit(MAX_FLOAT64, 0)], [], [], {})
  }

  function StartFrontier(from: string): Frontier {
    Frontier(0, 1, map[from := MAX_FLOAT64])
  }

  lemma Start(q: Query, symbols: map<string, string>)
    requires q.WellFormed()
    ensures Inv(q, symbols, StartFrontier(q.from), StartState(q.from), {})
    ensures Covers(q, StartFrontier(q.from).snap, 0)
    ensures Kept(StartState(q.from).cands) == NO_RESULT
  {
    var s := StartState(q.from);
    assert s.queue[0] == StartItem(q.from);
    assert Queued(s.queue, 0, 1, q.from, MAX_FLOAT64);
    assert ItemOk(q, StartItem(q.from));
  }

  function Dequeue(s: State): State
    requires s.queue != []
  {
    s.(queue := s.queue[1..], popped := s.popped + {s.queue[0].path})
  }

  lemma DequeueKeepsProgress(q: Query, f: Frontier, s: State)
    requires 0 < f.k <= |s.queue| && Progress(q, f, s, {})
    ensures Progress(q, f.(k := f.k - 1), Dequeue(s), {(s.queue[0].addr, s.queue[0].weight)})
  {
  }

  lemma DequeueKeepsVisited(q: Query, f: Frontier, s: State)
    requires 0 < f.k <= |s.queue| && VisitedOk(q, f, s)
    ensures VisitedOk(q, f.(k := f.k - 1), Dequeue(s))
  {
  }

  lemma DequeueKeepsPaths(f: Frontier, s: State)
    requires 0 < f.k <= |s.queue| && PathsOk(f, s) && |s.queue[0].path| <= f.level + 1
    ensures PathsOk(f.(k := f.k - 1), Dequeue(s)) && ExtendedBy(Dequeue(s), s.queue[0].path, {})
  {
  }

  /** Taking the head of the queue starts its expansion. */
  lemma Pop(q: Query, symbols: map<string, string>, f: Frontier, s: State)
    requires Inv(q, symbols, f, s, {}) && f.k > 0
    ensures |s.queue| > 0
    ensures
      var cur, f', s' := s.queue[0], f.(k := f.k - 1), Dequeue(s);
      Inv(q, symbols, f', s', {(cur.addr, cur.weight)}) && Expanding(q, f', s', cur, {})
  {
    hide Seen, EdgeWeight, CandsOk, VisitedOk, PathsOk, ExtendedBy, Progress;
    DequeueKeepsProgress(q, f, s);
    DequeueKeepsVisited(q, f, s);
    DequeueKeepsPaths(f, s);
    SameCands(q, symbols, s, Dequeue(s));
    DequeueKeepsDirect(q, f, s);
  }

  lemma DequeueKeepsDirect(q: Query, f: Frontier, s: State)
    requires 0 < f.k <= |s.queue| && DirectOk(q, s, false) && PathsOk(f, s) && q.Transit(s.queue[0].path)
    ensures DirectOk(q, Dequeue(s), true)
    ensures Dequeue(s).popped == {[q.from]} ==> s.queue[0].path == [q.from] && Direct(q, Dequeue(s), {})
  {
    var p := s.queue[0].path;
    assert p in Dequeue(s).popped;
    if s.popped == {} {
      assert |p| == 1 && p == [q.from];
    } else {
      var r :| r in s.popped;
      assert r in Dequeue(s).popped && r != p;
    }
  }

  /** With every edge followed, the expanded item needs no further attention. */
  lemma Expanded(q: Query, symbols: map<string, string>, f: Frontier, s: State, cur: Item, done: set<string>)
    requires Inv(q, symbols, f, s, {(cur.addr, cur.weight)}) && Expanding(q, f, s, cur, done)
    requires Targets(q.g, cur.addr) <= done
    ensures Inv(q, symbols, f, s, {}) && f.level < q.Bound() && f.k <= |s.queue|
  {
  }

  /** Relaxing every snapshot weight extends the cover by one edge. */
  lemma CoverOneMore(q: Query, f: Frontier, s: State)
    requires Covers(q, f.snap, f.level) && f.level + 1 < q.Bound()
    requires forall u :: u in f.snap ==>
      Relaxed(q, f, s, u, f.snap[u], Targets(q.g, u)) && u in s.visited && f.snap[u] <= s.visited[u].weight
    ensures Covers(q, Weights(s.visited), f.level + 1)
  {
  }

  lemma PathsOfNextLevel(f: Frontier, s: State, f': Frontier)
    requires PathsOk(f, s) && f'.level == f.level + 1
    ensures PathsOk(f', s)
  {
  }

  /** A level is finished: everything it queued is the next level. */
  lemma NextLevel(q: Query, symbols: map<string, string>, f: Frontier, s: State)
    requires Inv(q, symbols, f, s, {}) && Covers(q, f.snap, f.level)
    requires f.k == 0 && |s.queue| > 0
    ensures
      var f' := Frontier(f.level + 1, |s.queue|, Weights(s.visited));
      Inv(q, symbols, f', s, {}) && Covers(q, f'.snap, f.level + 1)
  {
    hide ItemOk, Seen, EdgeWeight, EdgeWeights, CandsOk, Covers, Separated, Tolerance, PathsOk, DirectOk;
    var f' := Frontier(f.level + 1, |s.queue|, Weights(s.visited));
    assert s.queue[0].hops == f.level + 1;
    PathsOfNextLevel(f, s, f');
    CoverOneMore(q, f, s);
    forall u | u in f'.snap
      ensures Relaxed(q, f', s, u, f'.snap[u], Targets(q.g, u)) || Queued(s.queue, 0, f'.k, u, f'.snap[u])
    {
      if !(u in f.snap && f.snap[u] == s.visited[u].weight) {
        assert Queued(s.queue, 0, |s.queue|, u, s.visited[u].weight);
      }
    }
  }

  /** Taking the next item, on to the next level when this one is finished. */
  lemma TakeNext(q: Query, symbols: map<string, string>, f: Frontier, s: State) returns (f': Frontier)
    requires Inv(q, symbols, f, s, {}) && Covers(q, f.snap, f.level) && s.queue != []
    ensures f.level <= f'.level < q.Bound() && (f'.level == f.level ==> f'.k < f.k)
    ensures Covers(q, f'.snap, f'.level)
    ensures Inv(q, symbols, f', Dequeue(s), {(s.queue[0].addr, s.queue[0].weight)})
    ensures Expanding(q, f', Dequeue(s), s.queue[0], {})
  {
    hide VisitedOk, CandsOk, PathsOk, Progress, Covers, ItemOk, Seen, Relaxed, ExtendedBy;
    f' := f;
    if f.k == 0 {
      NextLevel(q, symbols, f, s);
      f' := Frontier(f.level + 1, |s.queue|, Weights(s.visited));
    }
    Pop(q, symbols, f', s);
    f' := f'.(k := f'.k - 1);
  }

  /** With an empty queue the snapshot covers transit walks of any number of edges within the limit. */
  lemma {:induction false} Saturate(q: Query, symbols: map<string, string>, f: Frontier, s: State)
    requires Inv(q, symbols, f, s, {}) && Covers(q, f.snap, f.level) && |s.queue| == 0
    ensures Covers(q, Weights(s.visited), q.Bound() - 1)
    ensures forall u :: u in s.visited ==>
      u in f.snap && f.snap[u] == s.visited[u].weight && Relaxed(q, f, s, u, f.snap[u], Targets(q.g, u))
    decreases q.Bound() - f.level
  {
    hide ItemOk, Seen, EdgeWeight, EdgeWeights, CandsOk, PathsOk, DirectOk, Tolerance;
    assert Weights(s.visited) == f.snap;
    if f.level + 1 < q.Bound() {
      CoverOneMore(q, f, s);
      PathsOfNextLevel(f, s, f.(level := f.level + 1));
      Saturate(q, symbols, f.(level := f.level + 1), s);
    }
  }

  /** When the queue is empty, no route within the limit is heavier than the heaviest candidate by more than
      one tolerance for each edge before the last. */
  lemma Finished(q: Query, symbols: map<string, string>, f: Frontier, s: State, p: seq<string>)
    requires Inv(q, symbols, f, s, {}) && Covers(q, f.snap, f.level) && |s.queue| == 0
    requires q.Reachable(p)
    ensures s.cands != []
    ensures Heaviest(s.cands) >= Bottleneck(q.g, p) - Loss(Inexact(q.Bound() - 1), Tolerance(q.g))
  {
    hide ItemOk, Seen, EdgeWeight, EdgeWeights, CandsOk, Covers, Relaxed, Usable, Queued, Separated;
    Saturate(q, symbols, f, s);
    FinalHop(q, f, s, p);
  }

  lemma FinalHop(q: Query, f: Frontier, s: State, p: seq<string>)
    requires Covers(q, Weights(s.visited), q.Bound() - 1) && q.Reachable(p)
    requires forall u :: u in s.visited ==>
      s.visited[u].weight > 0.0 && Relaxed(q, f, s, u, s.visited[u].weight, Targets(q.g, u))
    ensures s.cands != []
    ensures Heaviest(s.cands) >= Bottleneck(q.g, p) - Loss(Inexact(q.Bound() - 1), Tolerance(q.g))
  {
    hide EdgeWeight, Separated, Tolerance, Loss, Heaviest;
    var r := Init(p);
    var u, v, w := Last(r), Last(p), Weights(s.visited);
    assert u in w && w[u] >= Bottleneck(q.g, r) - Loss(Inexact(|r| - 1), Tolerance(q.g));
    assert FinalEdge(q.g, p) == EdgeAt(q.g, u, v) && v in Targets(q.g, u);
    assert Heaviest(s.cands) >= Min(w[u], EdgeAt(q.g, u, v).weight) > 0.0;
    LossGrows(Inexact(|r| - 1), Inexact(q.Bound() - 1), Tolerance(q.g));
  }

  lemma {:induction false} LossGrows(m: nat, n: nat, t: real)
    requires m <= n && t >= 0.0
    ensures Loss(m, t) <= Loss(n, t)
  {
    if m < n {
      LossGrows(m, n - 1, t);
    }
  }
}
