/** What the interleaving of the workers' pipelines can and cannot do to the two keys of a pair. */
module Interleavings {
  import opened KeyMigration
  import opened Options
  import opened Pipeline
  import opened Workers

  /** Each worker's commands are the HSETs of its messages, in order; how they alternate is open. */
  ghost predicate Interleaves(log: seq<Sent>, received: seq<seq<MarketData>>) {
    && (forall s :: s in log ==> s.worker < |received|)
    && forall i :: 0 <= i < |received| ==> PartOf(log, i) == HSetsOf(received[i])
  }

  // ---------------------------------------------------------------- parts of a log

  lemma NoPart(i: nat)
    ensures PartOf([], i) == []
  {
  }

  lemma {:induction false} PartOfConcat(a: seq<Sent>, b: seq<Sent>, i: nat)
    ensures PartOf(a + b, i) == PartOf(a, i) + PartOf(b, i)
  {
    if b == [] {
      assert a + b == a;
    } else {
      assert (a + b)[..|a + b| - 1] == a + b[..|b| - 1];
      PartOfConcat(a, b[..|b| - 1], i);
    }
  }

  lemma {:induction false} PartOfTagged(u: nat, cmds: seq<Command>, i: nat)
    ensures PartOf(Tagged(u, cmds), i) == if i == u then cmds else []
    ensures CommandsIn(Tagged(u, cmds)) == cmds
  {
    if cmds != [] {
      var init := cmds[..|cmds| - 1];
      assert Tagged(u, cmds)[..|cmds| - 1] == Tagged(u, init);
      PartOfTagged(u, init, i);
    }
  }

  lemma {:induction false} LastForConcat(a: seq<Command>, b: seq<Command>, key: string)
    ensures LastFor(a + b, key) == if LastFor(b, key).Some? then LastFor(b, key) else LastFor(a, key)
  {
    if b == [] {
      assert a + b == a;
    } else {
      assert (a + b)[..|a + b| - 1] == a + b[..|b| - 1];
      LastForConcat(a, b[..|b| - 1], key);
    }
  }

  // ---------------------------------------------------------------- the last writers of a pair's keys

  /** A raw key is never a canonical one. */
  lemma KeysDiffer(a: MarketData, b: MarketData)
    ensures RawKey(a) != CanonKey(b)
  {
    assert RawKey(a)[5] == ':' && CanonKey(b)[5] == '_';
  }

  predicate WritesKey(md: MarketData, key: string) {
    RawKey(md) == key || CanonKey(md) == key
  }

  /** The last message that writes the key, if any. */
  function LastWriter(mds: seq<MarketData>, key: string): (last: Option<MarketData>)
    ensures last.Some? ==> last.value in mds && WritesKey(last.value, key)
    ensures last.None? ==> forall md :: md in mds ==> !WritesKey(md, key)
  {
    if mds == [] then None
    else if WritesKey(mds[|mds| - 1], key) then Some(mds[|mds| - 1])
    else LastWriter(mds[..|mds| - 1], key)
  }

  /** The last message that writes either key of the pair, if any. */
  function LastOfPair(mds: seq<MarketData>, md: MarketData): Option<MarketData> {
    if mds == [] then None
    else if WritesKey(mds[|mds| - 1], RawKey(md)) || WritesKey(mds[|mds| - 1], CanonKey(md)) then Some(mds[|mds| - 1])
    else LastOfPair(mds[..|mds| - 1], md)
  }

  /** Of the worker's writes to the pair's keys the last one is to the canonical key, which a message writes last. */
  predicate EndsCanonical(mds: seq<MarketData>, md: MarketData) {
    LastOfPair(mds, md).Some? && CanonKey(LastOfPair(mds, md).value) == CanonKey(md)
  }

  predicate EndsRaw(mds: seq<MarketData>, md: MarketData) {
    LastOfPair(mds, md).Some? && CanonKey(LastOfPair(mds, md).value) != CanonKey(md)
  }

  /** The last of the commands for either key, if any. */
  function LastForEither(cmds: seq<Command>, k: string, k': string): Option<Command> {
    if cmds == [] then None
    else if cmds[|cmds| - 1].key == k || cmds[|cmds| - 1].key == k' then Some(cmds[|cmds| - 1])
    else LastForEither(cmds[..|cmds| - 1], k, k')
  }

  lemma LastForOneMore(cmds: seq<Command>, c: Command, k: string, k': string)
    ensures LastFor(cmds + [c], k) == if c.key == k then Some(c) else LastFor(cmds, k)
    ensures LastForEither(cmds + [c], k, k') ==
      if c.key == k || c.key == k' then Some(c) else LastForEither(cmds, k, k')
  {
    assert (cmds + [c])[..|cmds|] == cmds;
  }

  /** The last command for a key is of the last message that writes it. */
  lemma {:induction false} LastOfHSets(mds: seq<MarketData>, key: string)
    ensures LastFor(HSetsOf(mds), key) ==
      match LastWriter(mds, key)
      case None => None
      case Some(md) => Some(HSet(key, FieldsFor(md)))
  {
    hide RawKey, CanonKey, FieldsFor;
    if mds != [] {
      var init, md := mds[..|mds| - 1], mds[|mds| - 1];
      LastOfHSets(init, key);
      LastOfTwo(HSetsOf(init), md, key, key);
    }
  }

  lemma LastOfTwo(cmds: seq<Command>, md: MarketData, k: string, k': string)
    ensures LastFor(cmds + HSetsFor(md), k) ==
      if WritesKey(md, k) then Some(HSet(k, FieldsFor(md))) else LastFor(cmds, k)
    ensures LastForEither(cmds + HSetsFor(md), k, k') ==
      if CanonKey(md) == k || CanonKey(md) == k' then Some(HSet(CanonKey(md), FieldsFor(md)))
      else if RawKey(md) == k || RawKey(md) == k' then Some(HSet(RawKey(md), FieldsFor(md)))
      else LastForEither(cmds, k, k')
  {
    hide RawKey, CanonKey, FieldsFor, LastFor, LastForEither;
    var r, c := HSetsFor(md)[0], HSetsFor(md)[1];
    assert cmds + HSetsFor(md) == cmds + [r] + [c];
    LastForOneMore(cmds + [r], c, k, k');
    LastForOneMore(cmds, r, k, k');
  }

  /** How a worker's messages end, read off its commands. */
  lemma {:induction false} EndOfHSets(mds: seq<MarketData>, md: MarketData)
    ensures
      var last := LastForEither(HSetsOf(mds), RawKey(md), CanonKey(md));
      && (EndsCanonical(mds, md) <==> last.Some? && last.value.key == CanonKey(md))
      && (EndsRaw(mds, md) <==> last.Some? && last.value.key == RawKey(md))
  {
    hide RawKey, CanonKey, FieldsFor;
    KeysDiffer(md, md);
    if mds != [] {
      var init, x := mds[..|mds| - 1], mds[|mds| - 1];
      EndOfHSets(init, md);
      LastOfTwo(HSetsOf(init), x, RawKey(md), CanonKey(md));
      KeysDiffer(x, md);
      KeysDiffer(md, x);
    }
  }

  // ---------------------------------------------------------------- when the two keys of a pair agree

  const FIELDS: set<string> := {"price", "timestamp", "exchange", "symbol"}

  /** The raw and the canonical key of the message's pair hold the same quote. */
  ghost predicate KeysAgree(m: Store, md: MarketData) {
    forall f :: f in FIELDS ==>
      && f in Get(m, RawKey(md)) && f in Get(m, CanonKey(md))
      && Get(m, RawKey(md))[f] == Get(m, CanonKey(md))[f]
  }

  lemma AgreeAfter(m: Store, cmds: seq<Command>, md: MarketData)
    requires forall c :: c in cmds ==> WritesQuote(c)
    requires LastFor(cmds, RawKey(md)).Some? && LastFor(cmds, CanonKey(md)).Some?
    ensures KeysAgree(Run(m, cmds), md) <==>
      LastFor(cmds, RawKey(md)).value.fields == LastFor(cmds, CanonKey(md)).value.fields
  {
    hide Run, RawKey, CanonKey, LastFor;
    LastQuoteWins(m, cmds, RawKey(md));
    LastQuoteWins(m, cmds, CanonKey(md));
    var c, d := LastFor(cmds, RawKey(md)).value, LastFor(cmds, CanonKey(md)).value;
    assert c in cmds && d in cmds;
    var a :| c.fields == FieldsFor(a);
    var b :| d.fields == FieldsFor(b);
    AssignFour(Get(m, RawKey(md)), a);
    AssignFour(Get(m, CanonKey(md)), b);
    assert "price" in FIELDS && "timestamp" in FIELDS && "exchange" in FIELDS && "symbol" in FIELDS;
  }

  /** Worker j can be the last to write the raw key and worker k the last to write the canonical one, in one run. */
  predicate MayEndWith(received: seq<seq<MarketData>>, md: MarketData, j: nat, k: nat)
    requires j < |received| && k < |received|
  {
    && LastWriter(received[j], RawKey(md)).Some? && LastWriter(received[k], CanonKey(md)).Some?
    && (j == k || !EndsCanonical(received[j], md) || !EndsRaw(received[k], md))
  }

  /** Whichever two workers end a run, their last messages for the two keys carry the same fields. */
  ghost predicate LastsAgree(received: seq<seq<MarketData>>, md: MarketData) {
    forall j, k :: 0 <= j < |received| && 0 <= k < |received| && MayEndWith(received, md, j, k) ==>
      FieldsFor(LastWriter(received[j], RawKey(md)).value) == FieldsFor(LastWriter(received[k], CanonKey(md)).value)
  }

  /** The last command for the key, with the worker that sent it. */
  function LastSentFor(log: seq<Sent>, key: string): (last: Option<Sent>)
    ensures last.Some? ==> last.value in log
  {
    if log == [] then None
    else if log[|log| - 1].command.key == key then Some(log[|log| - 1])
    else LastSentFor(log[..|log| - 1], key)
  }

  lemma {:induction false} LastSentIsLast(log: seq<Sent>, key: string)
    ensures
      match LastSentFor(log, key)
      case None => LastFor(CommandsIn(log), key).None?
      case Some(s) => LastFor(CommandsIn(log), key) == LastFor(PartOf(log, s.worker), key) == Some(s.command)
  {
    hide CommandsIn;
    if log != [] {
      var init, s := log[..|log| - 1], log[|log| - 1];
      assert log == init + [s];
      LastSentIsLast(init, key);
      PartOfOneMore(init, s, s.worker);
      LastForOneMore(CommandsIn(init), s.command, key, key);
      LastForOneMore(PartOf(init, s.worker), s.command, key, key);
      if s.command.key != key && LastSentFor(init, key).Some? {
        var u := LastSentFor(init, key).value.worker;
        PartOfOneMore(init, s, u);
        LastForOneMore(PartOf(init, u), s.command, key, key);
        assert PartOf(init, u) + [] == PartOf(init, u);
      }
    } else {
      assert CommandsIn(log) == [];
    }
  }

  lemma PartEndsWith(log: seq<Sent>, s: Sent, u: nat, k: string, k': string)
    ensures LastForEither(PartOf(log + [s], u), k, k') ==
      if s.worker == u && (s.command.key == k || s.command.key == k') then Some(s.command)
      else LastForEither(PartOf(log, u), k, k')
  {
    PartOfOneMore(log, s, u);
    LastForOneMore(PartOf(log, u), s.command, k, k');
    assert PartOf(log, u) + [] == PartOf(log, u);
  }

  /** The last write of all to either key is the last such write of its worker, so two workers cannot each be last on
      one key and end on the other. */
  lemma {:induction false} LastsMeet(log: seq<Sent>, raw: string, canon: string)
    requires raw != canon && LastSentFor(log, raw).Some? && LastSentFor(log, canon).Some?
    ensures
      var j, k := LastSentFor(log, raw).value.worker, LastSentFor(log, canon).value.worker;
      var r, c := LastForEither(PartOf(log, j), raw, canon), LastForEither(PartOf(log, k), raw, canon);
      !(r.Some? && r.value.key == canon && c.Some? && c.value.key == raw)
  {
    hide PartOf, LastForEither;
    var init, s := log[..|log| - 1], log[|log| - 1];
    assert log == init + [s];
    PartEndsWith(init, s, LastSentFor(log, raw).value.worker, raw, canon);
    PartEndsWith(init, s, LastSentFor(log, canon).value.worker, raw, canon);
    if s.command.key != raw && s.command.key != canon {
      LastsMeet(init, raw, canon);
    }
  }

  lemma LogWritesQuotes(log: seq<Sent>, received: seq<seq<MarketData>>)
    requires Interleaves(log, received)
    ensures forall c :: c in CommandsIn(log) ==> WritesQuote(c)
  {
    hide HSetsOf, HSetsFor, WritesQuote;
    forall c | c in CommandsIn(log) ensures WritesQuote(c) {
      var n :| 0 <= n < |log| && CommandsIn(log)[n] == c;
      PartHolds(log, log[n]);
      HSetOrigin(received[log[n].worker], c);
      var md :| md in received[log[n].worker] && c in HSetsFor(md);
      HSetWritesQuote(md, c);
    }
  }

  lemma {:induction false} PartHolds(log: seq<Sent>, s: Sent)
    requires s in log
    ensures s.command in PartOf(log, s.worker)
  {
    if s != log[|log| - 1] {
      PartHolds(log[..|log| - 1], s);
    }
  }

  lemma HSetWritesQuote(md: MarketData, c: Command)
    requires c in HSetsFor(md)
    ensures WritesQuote(c)
  {
    hide RawKey, CanonKey, FieldsFor;
  }

  lemma {:induction false} WrittenSomewhere(log: seq<Sent>, i: nat, key: string)
    requires LastFor(PartOf(log, i), key).Some?
    ensures LastSentFor(log, key).Some?
  {
    NoPart(i);
    hide PartOf;
    var init, s := log[..|log| - 1], log[|log| - 1];
    if s.command.key != key {
      assert log == init + [s];
      PartOfOneMore(init, s, i);
      LastForOneMore(PartOf(init, i), s.command, key, key);
      assert PartOf(init, i) + [] == PartOf(init, i);
      WrittenSomewhere(init, i, key);
    }
  }

  lemma PairWritten(mds: seq<MarketData>, md: MarketData)
    requires md in mds
    ensures LastWriter(mds, RawKey(md)).Some? && LastWriter(mds, CanonKey(md)).Some?
  {
    assert WritesKey(md, RawKey(md)) && WritesKey(md, CanonKey(md));
  }

  /** In every interleaving the keys agree, if the lasts do. */
  lemma LastsAgreeSuffices(m: Store, received: seq<seq<MarketData>>, i: nat, md: MarketData, log: seq<Sent>)
    requires i < |received| && md in received[i] && Interleaves(log, received) && LastsAgree(received, md)
    ensures KeysAgree(Run(m, CommandsIn(log)), md)
  {
    hide RawKey, CanonKey, FieldsFor, HSetsOf, Run, LastFor, KeysAgree, CommandsIn, PartOf, LastWriter, LastSentFor;
    hide EndsRaw, EndsCanonical, LastForEither;
    var raw, canon := RawKey(md), CanonKey(md);
    KeysDiffer(md, md);
    PairWritten(received[i], md);
    LastOfHSets(received[i], raw);
    LastOfHSets(received[i], canon);
    WrittenSomewhere(log, i, raw);
    WrittenSomewhere(log, i, canon);
    var j, k := LastSentFor(log, raw).value.worker, LastSentFor(log, canon).value.worker;
    LastSentIsLast(log, raw);
    LastSentIsLast(log, canon);
    LastsMeet(log, raw, canon);
    LastOfHSets(received[j], raw);
    LastOfHSets(received[k], canon);
    EndOfHSets(received[j], md);
    EndOfHSets(received[k], md);
    assert MayEndWith(received, md, j, k);
    LogWritesQuotes(log, received);
    AgreeAfter(m, CommandsIn(log), md);
  }

  // ---------------------------------------------------------------- an interleaving for every way to end

  /** The workers but u and v, one after the other. */
  function Others(received: seq<seq<MarketData>>, u: nat, v: nat, n: nat): seq<Sent>
    requires n <= |received|
  {
    if n == 0 then []
    else if n - 1 == u || n - 1 == v then Others(received, u, v, n - 1)
    else Others(received, u, v, n - 1) + Tagged(n - 1, HSetsOf(received[n - 1]))
  }

  lemma {:induction false} PartOfOthers(received: seq<seq<MarketData>>, u: nat, v: nat, n: nat, i: nat)
    requires n <= |received|
    ensures PartOf(Others(received, u, v, n), i) == if i < n && i != u && i != v then HSetsOf(received[i]) else []
    ensures forall s :: s in Others(received, u, v, n) ==> s.worker < n
  {
    hide HSetsOf, PartOf;
    if n > 0 {
      PartOfOthers(received, u, v, n - 1, i);
      PartOfConcat(Others(received, u, v, n - 1), Tagged(n - 1, HSetsOf(received[n - 1])), i);
      PartOfTagged(n - 1, HSetsOf(received[n - 1]), i);
    } else {
      NoPart(i);
    }
  }

  /** All other workers run first, then the head of u's commands, all of v's, and the rest of u's. */
  function Around(received: seq<seq<MarketData>>, u: nat, head: seq<Command>, v: nat, tail: seq<Command>): seq<Sent>
    requires u < |received| && v < |received|
  {
    Others(received, u, v, |received|) + Tagged(u, head) +
    (if u == v then [] else Tagged(v, HSetsOf(received[v]))) + Tagged(u, tail)
  }

  lemma PartOfFour(a: seq<Sent>, b: seq<Sent>, c: seq<Sent>, d: seq<Sent>, i: nat)
    ensures PartOf(a + b + c + d, i) == PartOf(a, i) + PartOf(b, i) + PartOf(c, i) + PartOf(d, i)
  {
    hide PartOf;
    PartOfConcat(a + b + c, d, i);
    PartOfConcat(a + b, c, i);
    PartOfConcat(a, b, i);
  }

  lemma AroundInterleaves(received: seq<seq<MarketData>>, u: nat, head: seq<Command>, v: nat, tail: seq<Command>)
    requires u < |received| && v < |received| && head + tail == HSetsOf(received[u])
    ensures Interleaves(Around(received, u, head, v, tail), received)
  {
    hide HSetsOf, PartOf, Around;
    forall i | 0 <= i < |received| ensures PartOf(Around(received, u, head, v, tail), i) == HSetsOf(received[i]) {
      AroundPart(received, u, head, v, tail, i);
    }
    AroundWorkers(received, u, head, v, tail);
  }

  lemma AroundPart(received: seq<seq<MarketData>>, u: nat, head: seq<Command>, v: nat, tail: seq<Command>, i: nat)
    requires u < |received| && v < |received| && head + tail == HSetsOf(received[u]) && i < |received|
    ensures PartOf(Around(received, u, head, v, tail), i) == HSetsOf(received[i])
  {
    hide HSetsOf, PartOf, Others, Tagged;
    var a, b, d := Others(received, u, v, |received|), Tagged(u, head), Tagged(u, tail);
    var c := if u == v then [] else Tagged(v, HSetsOf(received[v]));
    PartOfFour(a, b, c, d, i);
    PartOfOthers(received, u, v, |received|, i);
    PartOfTagged(u, head, i);
    PartOfTagged(u, tail, i);
    PartOfTagged(v, HSetsOf(received[v]), i);
    NoPart(i);
    var w, x, y, z := PartOf(a, i), PartOf(b, i), PartOf(c, i), PartOf(d, i);
    if i == u {
      assert w + x + y + z == head + tail;
    } else if i == v {
      assert w + x + y + z == y;
    } else {
      assert w + x + y + z == w;
    }
  }

  lemma AroundWorkers(received: seq<seq<MarketData>>, u: nat, head: seq<Command>, v: nat, tail: seq<Command>)
    requires u < |received| && v < |received|
    ensures forall s :: s in Around(received, u, head, v, tail) ==> s.worker < |received|
  {
    hide HSetsOf, PartOf, Others;
    PartOfOthers(received, u, v, |received|, 0);
  }

  /** What such a run ends with on a key. */
  lemma AroundEnds(received: seq<seq<MarketData>>, u: nat, head: seq<Command>, v: nat, tail: seq<Command>, key: string)
    requires u < |received| && v < |received| && head + tail == HSetsOf(received[u])
    ensures LastFor(tail, key).Some? ==>
      LastFor(CommandsIn(Around(received, u, head, v, tail)), key) == LastFor(tail, key)
    ensures LastFor(tail, key).None? && u != v && LastFor(HSetsOf(received[v]), key).Some? ==>
      LastFor(CommandsIn(Around(received, u, head, v, tail)), key) == LastFor(HSetsOf(received[v]), key)
  {
    hide HSetsOf, Others, LastFor, PartOf;
    var a, b, d := Others(received, u, v, |received|), Tagged(u, head), Tagged(u, tail);
    var c := if u == v then [] else Tagged(v, HSetsOf(received[v]));
    PartOfTagged(u, tail, u);
    PartOfTagged(v, HSetsOf(received[v]), v);
    assert CommandsIn(a + b + c + d) == CommandsIn(a + b) + CommandsIn(c) + CommandsIn(d);
    LastForConcat(CommandsIn(a + b) + CommandsIn(c), CommandsIn(d), key);
    LastForConcat(CommandsIn(a + b), CommandsIn(c), key);
  }

  /** Commands whose last one for either key is for `key` can be cut so that the tail keeps it and has none for the
      other. */
  lemma {:induction false} CutBeforeLast(cmds: seq<Command>, key: string, other: string)
    returns (head: seq<Command>, tail: seq<Command>)
    requires key != other && LastForEither(cmds, key, other).Some? && LastForEither(cmds, key, other).value.key == key
    ensures head + tail == cmds
    ensures LastFor(tail, key) == LastFor(cmds, key) && LastFor(tail, key).Some? && LastFor(tail, other).None?
  {
    assert cmds != [] && LastFor([], key).None? && LastFor([], other).None?;
    hide LastFor, LastForEither;
    var init, c := cmds[..|cmds| - 1], cmds[|cmds| - 1];
    assert cmds == init + [c] && [] + [c] == [c];
    LastForOneMore(init, c, key, other);
    if c.key == key {
      head, tail := init, [c];
      LastForOneMore([], c, key, other);
      LastForOneMore([], c, other, key);
    } else {
      head, tail := CutBeforeLast(init, key, other);
      LastForOneMore(tail, c, key, other);
      LastForOneMore(tail, c, other, key);
      assert head + (tail + [c]) == cmds;
      tail := tail + [c];
    }
  }

  /** If the last messages of some two workers that may end a run differ, an interleaving leaves the keys different. */
  lemma DifferingLasts(m: Store, received: seq<seq<MarketData>>, md: MarketData, j: nat, k: nat)
    returns (log: seq<Sent>)
    requires j < |received| && k < |received| && MayEndWith(received, md, j, k)
    requires
      FieldsFor(LastWriter(received[j], RawKey(md)).value) != FieldsFor(LastWriter(received[k], CanonKey(md)).value)
    ensures Interleaves(log, received) && !KeysAgree(Run(m, CommandsIn(log)), md)
  {
    hide RawKey, CanonKey, FieldsFor, HSetsOf, Run, LastFor, KeysAgree, CommandsIn, PartOf, LastWriter, Around,
      Interleaves;
    var raw, canon := RawKey(md), CanonKey(md);
    KeysDiffer(md, md);
    LastOfHSets(received[j], raw);
    LastOfHSets(received[k], canon);
    EndOfHSets(received[j], md);
    EndOfHSets(received[k], md);
    var u, v, head, tail := j, j, [], HSetsOf(received[j]);
    if j != k && !EndsRaw(received[k], md) {
      EndsSomehow(HSetsOf(received[k]), canon, raw);
      head, tail := CutBeforeLast(HSetsOf(received[k]), canon, raw);
      u, v := k, j;
    } else if j != k {
      EndsSomehow(HSetsOf(received[j]), raw, canon);
      head, tail := CutBeforeLast(HSetsOf(received[j]), raw, canon);
      u, v := j, k;
    }
    assert head + tail == HSetsOf(received[u]);
    log := Around(received, u, head, v, tail);
    AroundInterleaves(received, u, head, v, tail);
    AroundEnds(received, u, head, v, tail, raw);
    AroundEnds(received, u, head, v, tail, canon);
    LogWritesQuotes(log, received);
    AgreeAfter(m, CommandsIn(log), md);
  }

  lemma {:induction false} EndsSomehow(cmds: seq<Command>, k: string, k': string)
    requires LastFor(cmds, k).Some?
    ensures LastForEither(cmds, k, k').Some? && LastForEither(cmds, k', k) == LastForEither(cmds, k, k')
    ensures LastForEither(cmds, k, k').value.key == k || LastForEither(cmds, k, k').value.key == k'
  {
    if cmds[|cmds| - 1].key != k && cmds[|cmds| - 1].key != k' {
      EndsSomehow(cmds[..|cmds| - 1], k, k');
    }
  }

  /** The raw and the canonical key of a pair hold the same quote after every interleaving exactly when the last
      messages for them, of any two workers that may end a run, carry the same fields. */
  lemma PairAlwaysAgreesIff(m: Store, received: seq<seq<MarketData>>, i: nat, md: MarketData)
    requires i < |received| && md in received[i]
    ensures (forall log :: Interleaves(log, received) ==> KeysAgree(Run(m, CommandsIn(log)), md)) <==>
      LastsAgree(received, md)
  {
    hide RawKey, CanonKey, FieldsFor, Run, KeysAgree, LastWriter, Interleaves;
    if LastsAgree(received, md) {
      forall log | Interleaves(log, received) ensures KeysAgree(Run(m, CommandsIn(log)), md) {
        LastsAgreeSuffices(m, received, i, md, log);
      }
    } else {
      var j, k :| 0 <= j < |received| && 0 <= k < |received| && MayEndWith(received, md, j, k) &&
        FieldsFor(LastWriter(received[j], RawKey(md)).value) != FieldsFor(LastWriter(received[k], CanonKey(md)).value);
      var log := DifferingLasts(m, received, md, j, k);
    }
  }

  // ---------------------------------------------------------------- what that means for a pool

  /** A drained pool without errors has run an interleaving of its workers' messages. */
  lemma PoolInterleaves(pool: WorkerPool)
    requires pool.Valid() && Drained(pool) && pool.totalRedisErrors == 0
    ensures Interleaves(pool.executed, Received(pool.histories))
    ensures pool.store == Run(pool.found, CommandsIn(pool.executed))
  {
    hide HSetsOf, PartOf, Run;
    BatchingIsInvisible(pool);
  }

  /** So its keys agree when the lasts do. */
  lemma PoolAgrees(pool: WorkerPool, i: nat, md: MarketData)
    requires pool.Valid() && Drained(pool) && pool.totalRedisErrors == 0
    requires i < |pool.histories| && md in pool.histories[i].received && LastsAgree(Received(pool.histories), md)
    ensures KeysAgree(pool.store, md)
  {
    hide RawKey, CanonKey, Run, KeysAgree, Interleaves, LastsAgree;
    PoolInterleaves(pool);
    LastsAgreeSuffices(pool.found, Received(pool.histories), i, md, pool.executed);
  }

  /** For a pair whose keys only one worker writes: exactly when its last messages for them carry the same fields. */
  lemma SoleWriterAgreesIff(pool: WorkerPool, i: nat, md: MarketData)
    requires pool.Valid() && Drained(pool) && pool.totalRedisErrors == 0
    requires i < |pool.histories| && md in pool.histories[i].received
    requires forall k, x :: Writes(pool, k, x, RawKey(md)) || Writes(pool, k, x, CanonKey(md)) ==> k == i
    ensures
      var mds := pool.histories[i].received;
      var raw, canon := LastWriter(mds, RawKey(md)), LastWriter(mds, CanonKey(md));
      raw.Some? && canon.Some? && (KeysAgree(pool.store, md) <==> FieldsFor(raw.value) == FieldsFor(canon.value))
  {
    hide RawKey, CanonKey, FieldsFor, Run, KeysAgree, HSetsOf, Writes, LastFor;
    var mds := pool.histories[i].received;
    PairWritten(mds, md);
    LastOfHSets(mds, RawKey(md));
    LastOfHSets(mds, CanonKey(md));
    HSetsWriteQuotes(mds);
    AgreeAfter(pool.found, HSetsOf(mds), md);
    OthersDoNotInterfere(pool, i, RawKey(md));
    OthersDoNotInterfere(pool, i, CanonKey(md));
    SameHashes(pool.store, Run(pool.found, HSetsOf(mds)), md);
  }

  lemma SameHashes(m: Store, m': Store, md: MarketData)
    requires Get(m, RawKey(md)) == Get(m', RawKey(md)) && Get(m, CanonKey(md)) == Get(m', CanonKey(md))
    ensures KeysAgree(m, md) <==> KeysAgree(m', md)
  {
    hide RawKey, CanonKey;
  }

  lemma HSetsWriteQuotes(mds: seq<MarketData>)
    ensures forall c :: c in HSetsOf(mds) ==> WritesQuote(c)
  {
    hide HSetsOf, HSetsFor, WritesQuote;
    forall c | c in HSetsOf(mds) ensures WritesQuote(c) {
      HSetOrigin(mds, c);
      var md :| md in mds && c in HSetsFor(md);
      HSetWritesQuote(md, c);
    }
  }

  /** In particular when every message for either key is of the same exchange and symbol. */
  lemma OnePairAgrees(pool: WorkerPool, i: nat, md: MarketData)
    requires pool.Valid() && Drained(pool) && pool.totalRedisErrors == 0
    requires i < |pool.histories| && md in pool.histories[i].received
    requires forall k, x :: Writes(pool, k, x, RawKey(md)) || Writes(pool, k, x, CanonKey(md)) ==>
      k == i && x.exchange == md.exchange && x.symbol == md.symbol
    ensures KeysAgree(pool.store, md)
  {
    hide KeysAgree, FieldsFor, WritesKey;
    SoleWriterAgreesIff(pool, i, md);
    var mds := pool.histories[i].received;
    forall x | x in mds && (WritesKey(x, RawKey(md)) || WritesKey(x, CanonKey(md)))
      ensures WritesKey(x, RawKey(md)) && WritesKey(x, CanonKey(md))
    {
      OnePair(pool, i, md, x);
    }
    hide RawKey, CanonKey;
    SameLast(mds, RawKey(md), CanonKey(md));
  }

  lemma OnePair(pool: WorkerPool, i: nat, md: MarketData, x: MarketData)
    requires i < |pool.histories| && x in pool.histories[i].received
    requires WritesKey(x, RawKey(md)) || WritesKey(x, CanonKey(md))
    requires Writes(pool, i, x, RawKey(md)) || Writes(pool, i, x, CanonKey(md)) ==>
      x.exchange == md.exchange && x.symbol == md.symbol
    ensures WritesKey(x, RawKey(md)) && WritesKey(x, CanonKey(md))
  {
  }

  lemma {:induction false} SameLast(mds: seq<MarketData>, k: string, k': string)
    requires forall x :: x in mds && (WritesKey(x, k) || WritesKey(x, k')) ==> WritesKey(x, k) && WritesKey(x, k')
    ensures LastWriter(mds, k) == LastWriter(mds, k')
  {
    hide WritesKey;
    if mds != [] {
      assert mds[|mds| - 1] in mds;
      SameLast(mds[..|mds| - 1], k, k');
    }
  }

  // ---------------------------------------------------------------- every interleaving is a pool's run

  function Idle(received: seq<seq<MarketData>>): seq<Worker> {
    seq(|received|, k requires 0 <= k < |received| => Worker(EntriesOf(received[k]), false, [], false))
  }

  /** What the workers have received when those before i have got all of theirs, and i its first j messages. */
  function Stage(received: seq<seq<MarketData>>, i: nat, j: nat): seq<seq<MarketData>>
    requires i < |received| ==> j <= |received[i]|
  {
    seq(|received|, k requires 0 <= k < |received| =>
      if k < i then received[k] else if k == i then received[i][..j] else [])
  }

  lemma {:induction false} EntriesCount(mds: seq<MarketData>)
    ensures |EntriesOf(mds)| == 2 * |mds|
  {
    if mds != [] {
      EntriesCount(mds[..|mds| - 1]);
    }
  }

  lemma {:induction false} PartOfTotal<T>(lists: seq<seq<T>>, i: nat)
    requires i < |lists|
    ensures |lists[i]| <= Total(lists)
  {
    if i > 0 {
      PartOfTotal(lists[1..], i - 1);
    }
  }

  lemma StageStep(received: seq<seq<MarketData>>, i: nat, j: nat)
    requires i < |received| && j < |received[i]|
    ensures Stage(received, i, j + 1) == Stage(received, i, j)[i := Stage(received, i, j)[i] + [received[i][j]]]
    ensures Idle(Stage(received, i, j + 1)) ==
      var batch := EntriesOf(received[i][..j]) + EntriesFor(received[i][j]);
      Idle(Stage(received, i, j))[i := Worker(batch, false, [], false)]
  {
    hide EntriesOf, EntriesFor;
    assert received[i][..j + 1] == received[i][..j] + [received[i][j]];
    OneMoreMessage(received[i][..j], received[i][j]);
  }

  lemma StageDone(received: seq<seq<MarketData>>, i: nat)
    requires i < |received|
    ensures Stage(received, i, |received[i]|) == Stage(received, i + 1, 0)
  {
    var a, b := Stage(received, i, |received[i]|), Stage(received, i + 1, 0);
    assert received[i][..|received[i]|] == received[i];
    forall k | 0 <= k < |received| ensures a[k] == b[k] {
      assert k == i + 1 ==> received[k][..0] == [];
    }
  }

  /** The workers take their messages, one worker after the other; no batch gets long enough to be sent. */
  method ReceiveAll(pool: WorkerPool, received: seq<seq<MarketData>>)
    requires pool.Valid() && 2 * Total(received) < pool.pipelineSize
    requires pool.workers == Idle(Stage(received, 0, 0)) && Received(pool.histories) == Stage(received, 0, 0)
    modifies pool`workers, pool`totalProcessed, pool`perExchange, pool`histories
    ensures pool.Valid() && pool.workers == Idle(received) && Received(pool.histories) == received
  {
    hide EntriesOf, EntriesFor, Commands, Total, WorkerPool.Consistent;
    var n := |received|;
    for i := 0 to n
      invariant pool.Valid()
      invariant pool.workers == Idle(Stage(received, i, 0)) && Received(pool.histories) == Stage(received, i, 0)
    {
      for j := 0 to |received[i]|
        invariant pool.Valid()
        invariant pool.workers == Idle(Stage(received, i, j)) && Received(pool.histories) == Stage(received, i, j)
      {
        var md := received[i][j];
        StageStep(received, i, j);
        EntriesCount(received[i][..j + 1]);
        OneMoreMessage(received[i][..j], md);
        assert received[i][..j + 1] == received[i][..j] + [md];
        PartOfTotal(received, i);
        pool.Receive(i, md);
      }
      StageDone(received, i);
    }
    assert Stage(received, n, 0) == received;
  }

  /** The workers before i have sent their batches. */
  function Sending(received: seq<seq<MarketData>>, i: nat): seq<Worker> {
    seq(|received|, k requires 0 <= k < |received| =>
      var b := EntriesOf(received[k]);
      if k < i && b != [] then Worker(b, true, Commands(b), false) else Worker(b, false, [], false))
  }

  method TickAll(pool: WorkerPool, received: seq<seq<MarketData>>)
    requires pool.Valid() && pool.workers == Idle(received) && Received(pool.histories) == received
    modifies pool`workers, pool`histories
    ensures pool.Valid() && pool.workers == Sending(received, |received|) && Received(pool.histories) == received
  {
    hide EntriesOf, Commands, WorkerPool.Consistent;
    assert Idle(received) == Sending(received, 0);
    for i := 0 to |received|
      invariant pool.Valid() && pool.workers == Sending(received, i) && Received(pool.histories) == received
    {
      ghost var before := pool.workers;
      pool.Tick(i);
      assert pool.workers == Sending(received, i + 1);
    }
  }

  /** What the log has left for each worker is what is outstanding of it; the others are done. */
  ghost predicate Ahead(workers: seq<Worker>, rest: seq<Sent>) {
    forall i :: 0 <= i < |workers| ==>
      workers[i].outstanding == PartOf(rest, i) && !workers[i].refused && (!workers[i].flushing ==> workers[i] == IDLE)
  }

  lemma AheadOfAll(received: seq<seq<MarketData>>, log: seq<Sent>)
    requires Interleaves(log, received)
    ensures Ahead(Sending(received, |received|), log)
  {
    hide PartOf, HSetsOf, EntriesOf, Commands;
    forall i | 0 <= i < |received|
      ensures Sending(received, |received|)[i].outstanding == PartOf(log, i)
    {
      MessagesCommands(received[i]);
      NoCommands();
    }
  }

  lemma NoCommands()
    ensures Commands([]) == []
  {
  }

  lemma HeadOfRest(log: seq<Sent>, n: nat, k: nat)
    requires n < |log|
    ensures PartOf(log[n..], k) == (if log[n].worker == k then [log[n].command] else []) + PartOf(log[n + 1..], k)
  {
    assert log[n..] == [log[n]] + log[n + 1..] && [log[n]] == [] + [log[n]];
    PartOfConcat([log[n]], log[n + 1..], k);
    PartOfOneMore([], log[n], k);
    NoPart(k);
  }

  /** The server comes to the commands in the order of the log. */
  method ServeAll(pool: WorkerPool, received: seq<seq<MarketData>>, log: seq<Sent>)
    requires pool.Valid() && Received(pool.histories) == received && pool.executed == []
    requires |pool.workers| == |received|
    requires Ahead(pool.workers, log) && forall s :: s in log ==> s.worker < |pool.workers|
    modifies pool`workers, pool`store, pool`histories, pool`executed
    ensures pool.Valid() && Received(pool.histories) == received && pool.executed == log
    ensures |pool.workers| == |received| && Ahead(pool.workers, [])
  {
    hide PartOf, Execute, WorkerPool.Consistent, Ahead;
    assert log[0..] == log;
    for n := 0 to |log|
      invariant pool.Valid() && Received(pool.histories) == received && pool.executed == log[..n]
      invariant |pool.workers| == |received| && Ahead(pool.workers, log[n..])
    {
      var i := log[n].worker;
      ghost var before := pool.workers;
      assert log[n] in log;
      AheadStep(before, log, n);
      pool.Serve(i, true);
      assert Received(pool.histories) == received;
      assert log[..n + 1] == log[..n] + [log[n]];
    }
    assert log[|log|..] == [] && log[..|log|] == log;
  }

  lemma AheadStep(workers: seq<Worker>, log: seq<Sent>, n: nat)
    requires n < |log| && log[n].worker < |workers| && Ahead(workers, log[n..])
    ensures
      var w := workers[log[n].worker];
      && w.outstanding != [] && w.outstanding[0] == log[n].command
      && Ahead(workers[log[n].worker := w.(outstanding := w.outstanding[1..], refused := w.refused || !true)],
               log[n + 1..])
  {
    hide PartOf;
    forall k | 0 <= k < |workers|
      ensures workers[k].outstanding == (if log[n].worker == k then [log[n].command] else []) + PartOf(log[n + 1..], k)
      ensures log[n].worker != k ==> workers[k].outstanding == PartOf(log[n + 1..], k)
    {
      HeadOfRest(log, n, k);
      assert [] + PartOf(log[n + 1..], k) == PartOf(log[n + 1..], k);
    }
  }

  /** All pipelines return, without errors. */
  method EndAll(pool: WorkerPool, received: seq<seq<MarketData>>)
    requires pool.Valid() && Received(pool.histories) == received
    requires |pool.workers| == |received| && Ahead(pool.workers, [])
    modifies pool`workers, pool`abandoned, pool`totalRedisOps, pool`totalRedisErrors, pool`histories, pool`failed
    ensures pool.Valid() && Received(pool.histories) == received && Drained(pool)
    ensures pool.totalRedisErrors == old(pool.totalRedisErrors)
  {
    hide WorkerPool.Consistent;
    ghost var all := pool.workers;
    forall k | 0 <= k < |all| ensures all[k].outstanding == [] && !all[k].refused { NoPart(k); }
    for i := 0 to |pool.workers|
      invariant pool.Valid() && Received(pool.histories) == received && |pool.workers| == |received|
      invariant pool.totalRedisErrors == old(pool.totalRedisErrors)
      invariant forall k :: 0 <= k < i ==> pool.workers[k] == IDLE
      invariant forall k :: i <= k < |all| ==> pool.workers[k] == all[k]
    {
      if pool.workers[i].flushing {
        pool.EndFlush(i, false);
        assert Received(pool.histories) == received;
      }
    }
  }

  /** Every interleaving is run by some pool, which ends drained and without errors. */
  method RunInterleaving(found: Store, received: seq<seq<MarketData>>, log: seq<Sent>) returns (pool: WorkerPool)
    requires received != [] && Interleaves(log, received)
    ensures fresh(pool) && pool.Valid() && Drained(pool) && pool.totalRedisErrors == 0
    ensures pool.found == found && pool.executed == log && Received(pool.histories) == received
  {
    hide Interleaves, Ahead, WorkerPool.Consistent;
    pool := new WorkerPool(|received|, 2 * Total(received) + 1, found);
    NothingReceived(received);
    assert forall s :: s in log ==> s.worker < |received| by { WorkersOfLog(log, received); }
    ReceiveAll(pool, received);
    TickAll(pool, received);
    AheadOfAll(received, log);
    ServeAll(pool, received, log);
    EndAll(pool, received);
  }

  lemma WorkersOfLog(log: seq<Sent>, received: seq<seq<MarketData>>)
    requires Interleaves(log, received)
    ensures forall s :: s in log ==> s.worker < |received|
  {
  }

  lemma NothingReceived(received: seq<seq<MarketData>>)
    ensures |Stage(received, 0, 0)| == |received| == |Idle(Stage(received, 0, 0))|
    ensures forall k :: 0 <= k < |received| ==>
      Stage(received, 0, 0)[k] == [] && Idle(Stage(received, 0, 0))[k] == IDLE
  {
  }

  // ---------------------------------------------------------------- the simplest run that disagrees

  /** The turns a server may take with two workers that flush one message each. */
  function TurnsTaken(a: MarketData, b: MarketData): seq<Sent> {
    [Sent(0, HSetsFor(a)[0]), Sent(1, HSetsFor(b)[0]), Sent(1, HSetsFor(b)[1]), Sent(0, HSetsFor(a)[1])]
  }

  lemma TurnsInterleave(a: MarketData, b: MarketData)
    ensures Interleaves(TurnsTaken(a, b), [[a], [b]])
  {
    hide RawKey, CanonKey, FieldsFor, PartOf;
    var t := TurnsTaken(a, b);
    var s0, s1, s2, s3 := t[0], t[1], t[2], t[3];
    assert t == [s0] + [s1] + [s2] + [s3] && [s0] == [] + [s0];
    forall i: nat | i < 2 ensures PartOf(t, i) == HSetsOf([[a], [b]][i]) {
      NoPart(i);
      PartOfOneMore([], s0, i);
      PartOfOneMore([s0], s1, i);
      PartOfOneMore([s0] + [s1], s2, i);
      PartOfOneMore([s0] + [s1] + [s2], s3, i);
      assert HSetsOf([a]) == HSetsFor(a) && HSetsOf([b]) == HSetsFor(b);
    }
  }

  lemma SamePairSameKeys(a: MarketData, b: MarketData)
    requires a.exchange == b.exchange && a.symbol == b.symbol
    ensures RawKey(a) == RawKey(b) && CanonKey(a) == CanonKey(b)
  {
  }

  lemma TurnsEnd(ra: Command, ca: Command, rb: Command, cb: Command, raw: string, canon: string)
    requires raw != canon && ra.key == rb.key == raw && ca.key == cb.key == canon
    ensures LastFor([ra, rb, cb, ca], raw) == Some(rb) && LastFor([ra, rb, cb, ca], canon) == Some(ca)
    ensures LastFor([ra, ca] + [rb, cb], raw) == Some(rb) && LastFor([ra, ca] + [rb, cb], canon) == Some(cb)
  {
    hide LastFor;
    assert [ra, rb, cb, ca] == [ra, rb] + [cb] + [ca] && [ra, rb] == [ra] + [rb];
    assert [ra, ca] + [rb, cb] == [ra, ca] + [rb] + [cb];
    LastForOneMore([ra, rb] + [cb], ca, raw, canon);
    LastForOneMore([ra, rb] + [cb], ca, canon, raw);
    LastForOneMore([ra, rb], cb, raw, canon);
    LastForOneMore([ra], rb, raw, canon);
    LastForOneMore([ra, ca] + [rb], cb, raw, canon);
    LastForOneMore([ra, ca] + [rb], cb, canon, raw);
    LastForOneMore([ra, ca], rb, raw, canon);
  }

  lemma CommandsDisagree(m: Store, md: MarketData, ra: Command, ca: Command, rb: Command, cb: Command)
    requires ra.key == rb.key == RawKey(md) && ca.key == cb.key == CanonKey(md)
    requires WritesQuote(ra) && WritesQuote(ca) && WritesQuote(rb) && WritesQuote(cb)
    requires rb.fields == cb.fields != ca.fields
    ensures !KeysAgree(Run(m, [ra, rb, cb, ca]), md) && KeysAgree(Run(m, [ra, ca] + [rb, cb]), md)
  {
    KeysDiffer(md, md);
    hide *;
    TurnsEnd(ra, ca, rb, cb, RawKey(md), CanonKey(md));
    AgreeAfter(m, [ra, rb, cb, ca], md);
    AgreeAfter(m, [ra, ca] + [rb, cb], md);
  }

  lemma TurnsCommands(a: MarketData, b: MarketData)
    ensures
      var ra, ca, rb, cb := HSetsFor(a)[0], HSetsFor(a)[1], HSetsFor(b)[0], HSetsFor(b)[1];
      && CommandsIn(TurnsTaken(a, b)) == [ra, rb, cb, ca]
      && HSetsFor(a) == [ra, ca] && HSetsFor(b) == [rb, cb]
      && ra.key == RawKey(a) && ca.key == CanonKey(a) && rb.key == RawKey(b) && cb.key == CanonKey(b)
      && ra.fields == ca.fields == FieldsFor(a) && rb.fields == cb.fields == FieldsFor(b)
  {
    hide RawKey, CanonKey, FieldsFor;
  }

  /** With two quotes of one pair, turns leave the keys different, though one whole flush after the other would not. */
  lemma TurnsDisagree(m: Store, a: MarketData, b: MarketData)
    requires a.exchange == b.exchange && a.symbol == b.symbol && FieldsFor(a) != FieldsFor(b)
    ensures !KeysAgree(Run(m, CommandsIn(TurnsTaken(a, b))), a)
    ensures KeysAgree(Run(m, HSetsFor(a) + HSetsFor(b)), a)
  {
    SamePairSameKeys(a, b);
    TurnsCommands(a, b);
    forall md, c | c in HSetsFor(md) ensures WritesQuote(c) { HSetWritesQuote(md, c); }
    hide *;
    CommandsDisagree(m, a, HSetsFor(a)[0], HSetsFor(a)[1], HSetsFor(b)[0], HSetsFor(b)[1]);
  }

  /** Two workers that take one quote each of a pair: a run, drained and without errors, that leaves different quotes
      under the pair's keys. */
  method DisagreeingRun(found: Store, a: MarketData, b: MarketData) returns (pool: WorkerPool)
    requires a.exchange == b.exchange && a.symbol == b.symbol && FieldsFor(a) != FieldsFor(b)
    ensures fresh(pool) && pool.Valid() && Drained(pool) && pool.totalRedisErrors == 0 && pool.found == found
    ensures Received(pool.histories) == [[a], [b]] && !KeysAgree(pool.store, a)
  {
    hide Interleaves, KeysAgree, WorkerPool.Consistent, TurnsTaken, FieldsFor, Run;
    TurnsInterleave(a, b);
    pool := RunInterleaving(found, [[a], [b]], TurnsTaken(a, b));
    PoolInterleaves(pool);
    TurnsDisagree(found, a, b);
  }
}
