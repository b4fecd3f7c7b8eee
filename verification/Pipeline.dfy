/** The Redis pipeline: batch entries, the HSET commands they stand for, and the store the commands build. */
module Pipeline {
  import opened Options
  import opened ExchangeKeys
  import opened KeyMigration
  import opened Symbols
  import opened Text
  import RedisClient

  /** A value of an entry: a Go string, or anything else with the text fmt.Sprint gives it. */
  datatype Value = Str(text: string) | Other(text: string)

  /** key, field1, value1, field2, value2, ... */
  type Entry = seq<Value>

  datatype Command = HSet(key: string, fields: seq<(string, string)>)

  /** A key that is a string, then one or more fields named by strings, each with a value. */
  predicate WellFormed(e: Entry) {
    && |e| >= 3 && |e| % 2 == 1 && e[0].Str?
    && forall j :: 0 <= j < (|e| - 1) / 2 ==> e[1 + 2 * j].Str?
  }

  function FieldsOf(e: Entry): (r: seq<(string, string)>)
    requires |e| > 0
    ensures |r| == (|e| - 1) / 2
    ensures forall j :: 0 <= j < |r| ==> r[j] == (e[1 + 2 * j].text, e[2 + 2 * j].text)
  {
    seq((|e| - 1) / 2, j requires 0 <= j < (|e| - 1) / 2 => (e[1 + 2 * j].text, e[2 + 2 * j].text))
  }

  /** The commands of a batch; malformed entries have none. */
  function Commands(entries: seq<Entry>): seq<Command> {
    if entries == [] then []
    else
      var e := entries[|entries| - 1];
      Commands(entries[..|entries| - 1]) + if WellFormed(e) then [HSet(e[0].text, FieldsOf(e))] else []
  }

  /** What one command does to the store. */
  function Execute(m: Store, c: Command): Store {
    m[c.key := RedisClient.Assign(Get(m, c.key), c.fields)]
  }

  function Run(m: Store, cmds: seq<Command>): Store {
    if cmds == [] then m else Execute(Run(m, cmds[..|cmds| - 1]), cmds[|cmds| - 1])
  }

  /** Entries become commands one by one. */
  lemma {:induction false} CommandsConcat(a: seq<Entry>, b: seq<Entry>)
    ensures Commands(a + b) == Commands(a) + Commands(b)
  {
    if b == [] {
      assert a + b == a;
    } else {
      assert (a + b)[..|a + b| - 1] == a + b[..|b| - 1];
      CommandsConcat(a, b[..|b| - 1]);
    }
  }

  /** An entry becomes a command exactly when it is a key that is a string, followed by one or more names that are
      strings, each with a value; the command then sets each name to its value's text. */
  lemma EntrySends(e: Entry)
    ensures
      if |e| >= 3 && |e| % 2 == 1 && forall j :: 0 <= j < |e| && (j == 0 || j % 2 == 1) ==> e[j].Str? then
        && |Commands([e])| == 1 && Commands([e])[0].key == e[0].text
        && |Commands([e])[0].fields| == |e| / 2
        && forall j :: 0 <= j < |e| / 2 ==> Commands([e])[0].fields[j] == (e[2 * j + 1].text, e[2 * j + 2].text)
      else Commands([e]) == []
  {
    hide FieldsOf;
    assert [e][..0] == [] && Commands([]) == [];
    if |e| >= 3 && |e| % 2 == 1 && WellFormed(e) {
      forall j | 0 <= j < |e| && (j == 0 || j % 2 == 1) ensures e[j].Str? {
        if j > 0 {
          assert e[1 + 2 * (j / 2)].Str?;
        }
      }
    }
  }

  /** Queues the commands of a batch on the pipeline. */
  method QueueBatch(entries: seq<Entry>) returns (pipe: seq<Command>)
    ensures pipe == Commands(entries)
  {
    hide FieldsOf;
    pipe := [];
    for n := 0 to |entries|
      invariant pipe == Commands(entries[..n])
    {
      var e := entries[n];
      assert entries[..n + 1][..n] == entries[..n] && entries[..n + 1][n] == e;
      if |e| < 3 {
        continue;
      }
      if !e[0].Str? {
        continue;
      }
      var fields, valid := CollectFields(e);
      if !valid || |fields| == 0 {
        continue;
      }
      pipe := pipe + [HSet(e[0].text, fields)];
    }
    assert entries[..|entries|] == entries;
  }

  /** The loop over the fields of one entry, two positions at a time. */
  method CollectFields(e: Entry) returns (fields: seq<(string, string)>, valid: bool)
    requires |e| >= 3 && e[0].Str?
    ensures valid <==> WellFormed(e)
    ensures valid ==> fields == FieldsOf(e) && |fields| > 0
  {
    fields, valid := [], true;
    var i := 1;
    while i < |e|
      invariant valid && i == 1 + 2 * |fields| && i <= |e|
      invariant fields == FieldsOf(e)[..|fields|]
      invariant forall j :: 0 <= j < |fields| ==> e[1 + 2 * j].Str?
    {
      if i + 1 >= |e| {
        valid := false;
        break;
      }
      if !e[i].Str? {
        assert !e[1 + 2 * |fields|].Str?;
        valid := false;
        break;
      }
      fields := fields + [(e[i].text, e[i + 1].text)];
      i := i + 2;
    }
  }

  // ---------------------------------------------------------------- what a message becomes

  /** A quote on its way to Redis; `price` and `timestamp` are already rendered. */
  datatype MarketData = MarketData(exchange: string, symbol: string, price: string, timestamp: string)

  function EntryFor(key: string, md: MarketData): Entry {
    [Str(key), Str("price"), Other(md.price), Str("timestamp"), Other(md.timestamp),
     Str("exchange"), Str(md.exchange), Str("symbol"), Str(md.symbol)]
  }

  function RawKey(md: MarketData): string {
    Key("price", md.exchange, md.symbol)
  }

  function CanonKey(md: MarketData): string {
    Key("price_canon", NormalizeSpotSymbol(md.symbol), md.exchange)
  }

  /** Unless its names have colons, a message's keys are read back as exchange and symbol, and as canonical symbol, the
      letters without the blanks around them, and exchange. */
  lemma MessageKeys(md: MarketData)
    requires ':' !in md.exchange && ':' !in md.symbol
    ensures Split(RawKey(md), ':') == ["price", md.exchange, md.symbol]
    ensures Split(CanonKey(md), ':') == ["price_canon", TrimSpace(Letters(md.symbol)), md.exchange]
  {
    hide Split, Key, NormalizeSpotSymbol, Letters, TrimSpace;
    NormalizeIsLetters(md.symbol);
    NoNewColon(md.symbol);
    SplitThree("price", md.exchange, md.symbol);
    SplitThree("price_canon", NormalizeSpotSymbol(md.symbol), md.exchange);
  }

  lemma NoNewColon(s: string)
    requires ':' !in s
    ensures ':' !in NormalizeSpotSymbol(s)
  {
    hide NormalizeSpotSymbol, TrimSpace;
    NormalizeIsLetters(s);
    TrimSpaceTrims(Letters(s));
    LettersHaveNoColon(s);
  }

  lemma {:induction false} LettersHaveNoColon(s: string)
    requires ':' !in s
    ensures ':' !in Letters(s)
  {
    if s != [] {
      LettersHaveNoColon(s[1..]);
    }
  }

  /** Whichever venues' ids of one configured pair two messages carry, their canonical keys name the same symbol. */
  lemma VenuesMeet(v: Venue, v': Venue, s: string, md: MarketData, md': MarketData)
    requires ':' !in s && md.symbol == VenueId(v, s) && md'.symbol == VenueId(v', s)
    ensures |Split(CanonKey(md), ':')| > 1 && |Split(CanonKey(md'), ':')| > 1
    ensures Split(CanonKey(md), ':')[1] == Split(CanonKey(md'), ':')[1] == TrimSpace(Letters(s))
  {
    hide NormalizeSpotSymbol, Letters, TrimSpace, VenueId;
    NormalizeIsLetters(s);
    NoNewColon(s);
    CanonSymbol(v, s, md);
    CanonSymbol(v', s, md');
  }

  lemma CanonSymbol(v: Venue, s: string, md: MarketData)
    requires ':' !in NormalizeSpotSymbol(s) && md.symbol == VenueId(v, s)
    ensures |Split(CanonKey(md), ':')| > 1 && Split(CanonKey(md), ':')[1] == NormalizeSpotSymbol(s)
  {
    hide Split, NormalizeSpotSymbol, VenueId;
    VenuesAgree(v, s);
    var symbol := NormalizeSpotSymbol(s);
    SplitFirst("price_canon", symbol + ":" + md.exchange, ':');
    SplitFirst(symbol, md.exchange, ':');
    assert CanonKey(md) == "price_canon" + [':'] + (symbol + [':'] + md.exchange);
  }

  function EntriesFor(md: MarketData): seq<Entry> {
    [EntryFor(RawKey(md), md), EntryFor(CanonKey(md), md)]
  }

  function EntriesOf(mds: seq<MarketData>): seq<Entry> {
    if mds == [] then [] else EntriesOf(mds[..|mds| - 1]) + EntriesFor(mds[|mds| - 1])
  }

  function FieldsFor(md: MarketData): seq<(string, string)> {
    [("price", md.price), ("timestamp", md.timestamp), ("exchange", md.exchange), ("symbol", md.symbol)]
  }

  /** The raw and the canonical HSET of a message. */
  function HSetsFor(md: MarketData): seq<Command> {
    [HSet(RawKey(md), FieldsFor(md)), HSet(CanonKey(md), FieldsFor(md))]
  }

  function HSetsOf(mds: seq<MarketData>): seq<Command> {
    if mds == [] then [] else HSetsOf(mds[..|mds| - 1]) + HSetsFor(mds[|mds| - 1])
  }

  /** Both entries of a message are well-formed HSETs of its four fields. */
  lemma MessageCommands(md: MarketData)
    ensures Commands(EntriesFor(md)) == HSetsFor(md)
    ensures HSetsFor(md) == [HSet(RawKey(md), FieldsFor(md)), HSet(CanonKey(md), FieldsFor(md))]
  {
    hide WellFormed, FieldsOf, FieldsFor, RawKey, CanonKey;
    EntryCommand(RawKey(md), md);
    EntryCommand(CanonKey(md), md);
    var a, b := EntryFor(RawKey(md), md), EntryFor(CanonKey(md), md);
    assert EntriesFor(md) == [a] + [b];
    CommandsConcat([a], [b]);
    OneCommand(a);
    OneCommand(b);
  }

  /** The commands of any run of messages are their HSETs, in order. */
  lemma {:induction false} MessagesCommands(mds: seq<MarketData>)
    ensures Commands(EntriesOf(mds)) == HSetsOf(mds)
  {
    hide EntriesFor, HSetsFor;
    if mds != [] {
      var init, md := mds[..|mds| - 1], mds[|mds| - 1];
      MessagesCommands(init);
      MessageCommands(md);
      CommandsConcat(EntriesOf(init), EntriesFor(md));
    }
  }

  lemma OneCommand(e: Entry)
    requires WellFormed(e)
    ensures Commands([e]) == [HSet(e[0].text, FieldsOf(e))]
  {
  }

  lemma EntryCommand(key: string, md: MarketData)
    ensures WellFormed(EntryFor(key, md)) && FieldsOf(EntryFor(key, md)) == FieldsFor(md)
  {
  }

  // ---------------------------------------------------------------- what a store of quotes holds

  /** The command writes the four fields of a quote. */
  ghost predicate WritesQuote(c: Command) {
    exists md :: c.fields == FieldsFor(md)
  }

  /** The last of the commands for a key, if any. */
  function LastFor(cmds: seq<Command>, key: string): (last: Option<Command>)
    ensures last.Some? ==> last.value in cmds && last.value.key == key
    ensures last.None? ==> forall c :: c in cmds ==> c.key != key
  {
    if cmds == [] then None
    else if cmds[|cmds| - 1].key == key then Some(cmds[|cmds| - 1])
    else LastFor(cmds[..|cmds| - 1], key)
  }

  lemma QuoteOverQuote(h: Hash, a: MarketData, b: MarketData)
    ensures RedisClient.Assign(RedisClient.Assign(h, FieldsFor(a)), FieldsFor(b)) == RedisClient.Assign(h, FieldsFor(b))
  {
    AssignFour(h, a);
    AssignFour(h, b);
    AssignFour(RedisClient.Assign(h, FieldsFor(a)), b);
  }

  lemma AssignFour(h: Hash, md: MarketData)
    ensures RedisClient.Assign(h, FieldsFor(md)) ==
      h["price" := md.price]["timestamp" := md.timestamp]["exchange" := md.exchange]["symbol" := md.symbol]
  {
    var f := FieldsFor(md);
    assert f[..3][..2] == f[..2] && f[..2][..1] == f[..1] && f[..1] == [("price", md.price)];
    assert RedisClient.Assign(h, f[..2]) == h["price" := md.price]["timestamp" := md.timestamp];
    assert RedisClient.Assign(h, f[..3]) ==
      h["price" := md.price]["timestamp" := md.timestamp]["exchange" := md.exchange];
  }

  /** What a worker has written reads back: the time it was stamped with, and the price. */
  lemma WrittenQuoteReadsBack(h: Hash, md: MarketData, n: nat)
    requires md.timestamp == Decimal(n) && n < 0x8000_0000_0000_0000
    ensures
      var written := RedisClient.Assign(h, FieldsFor(md));
      && ParseTimestamp(written) == n && Quoted(written)
      && written["price"] == md.price && "exchange" in written && written["exchange"] == md.exchange
  {
    hide RedisClient.Assign, FieldsFor, ParseInt;
    AssignFour(h, md);
    TimestampRoundTrip(n);
  }

  /** Whatever quotes were written in between, a hash holds the last one written to it, whole. */
  lemma {:induction false} LastQuoteWins(m: Store, cmds: seq<Command>, key: string)
    requires forall c :: c in cmds ==> WritesQuote(c)
    ensures
      match LastFor(cmds, key)
      case None => Get(Run(m, cmds), key) == Get(m, key)
      case Some(c) => Get(Run(m, cmds), key) == RedisClient.Assign(Get(m, key), c.fields)
  {
    hide FieldsFor;
    if cmds != [] {
      var init, c := cmds[..|cmds| - 1], cmds[|cmds| - 1];
      LastQuoteWins(m, init, key);
      assert c in cmds;
      if c.key == key && LastFor(init, key).Some? {
        var a :| LastFor(init, key).value.fields == FieldsFor(a);
        var b :| c.fields == FieldsFor(b);
        QuoteOverQuote(Get(m, key), a, b);
      }
    }
  }
}
