/** Redis keys of price hashes, and where a legacy key is rewritten to. */
module ExchangeKeys {
  import opened Options
  import opened Text
  import opened Symbols

  /** strings.Split on one character; never empty. */
  function Split(s: string, c: char): (parts: seq<string>)
    ensures parts != []
    ensures forall i :: 0 <= i < |parts| ==> c !in parts[i]
  {
    if s == [] then [""]
    else
      var rest := Split(s[1..], c);
      if s[0] == c then [""] + rest else [[s[0]] + rest[0]] + rest[1..]
  }

  /** strings.Join. */
  function Join(parts: seq<string>, separator: string): string {
    if parts == [] then ""
    else if |parts| == 1 then parts[0]
    else parts[0] + separator + Join(parts[1..], separator)
  }

  const GATE := "gate"

  function ExchangeAliases(): map<string, string> {
    map["gate" := GATE, "gateio" := GATE, "gate-io" := GATE, "gate_io" := GATE, "gate-spot" := GATE, "gate.io" := GATE]
  }

  function NormalizeExchangeName(name: string): string {
    var trimmed := ToLower(TrimSpace(name));
    if trimmed in ExchangeAliases() then ExchangeAliases()[trimmed] else trimmed
  }

  /** The two families of price hashes. */
  datatype Group = Price | PriceCanon

  function Prefix(g: Group): string {
    match g
    case Price => "price"
    case PriceCanon => "price_canon"
  }

  /** The key matches the pattern the group is scanned with. */
  predicate InGroup(g: Group, key: string) {
    Prefix(g) + ":" <= key
  }

  /** Where a hash goes, the exchange name it gets and, unless empty, the symbol it gets. */
  datatype Rewrite = Rewrite(dest: string, exchange: string, symbol: string)

  /** fmt.Sprintf("%s:%s:%s", ...). */
  function Key(a: string, b: string, c: string): string {
    a + ":" + b + ":" + c
  }

  function PriceTarget(exchange: string, rawSymbol: string): Option<Rewrite> {
    if exchange == "" then None else
    var lower := NormalizeExchangeName(exchange);
    var symbol := TrimSpace(rawSymbol);
    if lower == ToLower(TrimSpace(exchange)) && (lower != GATE || '_' in symbol) then None else
    var destSymbol := if lower == GATE && '_' !in symbol then BybitToGateSymbol(ToUpper(symbol)) else symbol;
    Some(Rewrite(Key(Prefix(Price), lower, destSymbol), lower, destSymbol))
  }

  function CanonTarget(canon: string, exchange: string): Option<Rewrite> {
    if exchange == "" then None else
    var lower := NormalizeExchangeName(exchange);
    if lower == ToLower(TrimSpace(exchange)) then None
    else Some(Rewrite(Key(Prefix(PriceCanon), canon, lower), lower, ""))
  }

  /** The rewrite of a key, if its name asks for one. */
  function Target(g: Group, key: string): Option<Rewrite> {
    var parts := Split(key, ':');
    var n := |parts|;
    if n < 3 then None else
    match g
    case Price => PriceTarget(Join(parts[1..n - 1], ":"), parts[n - 1])
    case PriceCanon => CanonTarget(parts[1], Join(parts[2..], ":"))
  }

  /** The key's hash has to go somewhere else. */
  predicate Moves(g: Group, key: string) {
    Target(g, key).Some? && Target(g, key).value.dest != key
  }

  // ---------------------------------------------------------------- destinations stay put

  lemma {:induction false} SplitSingle(s: string, c: char)
    requires c !in s
    ensures Split(s, c) == [s]
  {
    if s != [] {
      SplitSingle(s[1..], c);
      assert [s[0]] + s[1..] == s;
    }
  }

  lemma {:induction false} SplitFirst(a: string, rest: string, c: char)
    requires c !in a
    ensures Split(a + [c] + rest, c) == [a] + Split(rest, c)
  {
    var s := a + [c] + rest;
    if a == [] {
      assert s[1..] == rest;
    } else {
      assert s[1..] == a[1..] + [c] + rest;
      SplitFirst(a[1..], rest, c);
      assert [a[0]] + a[1..] == a && ([a[1..]] + Split(rest, c))[1..] == Split(rest, c);
    }
  }

  lemma SplitThree(a: string, b: string, c: string)
    requires ':' !in a && ':' !in b && ':' !in c
    ensures Split(Key(a, b, c), ':') == [a, b, c]
  {
    SplitFirst(a, b + ":" + c, ':');
    SplitFirst(b, c, ':');
    SplitSingle(c, ':');
    assert Key(a, b, c) == a + [':'] + (b + [':'] + c);
  }

  lemma {:induction false} SplitLast(a: string, last: string, c: char)
    requires c !in last
    ensures Split(a + [c] + last, c) == Split(a, c) + [last]
  {
    var s := a + [c] + last;
    SplitSingle(last, c);
    if a == [] {
      assert s[1..] == last;
    } else {
      assert s[1..] == a[1..] + [c] + last;
      SplitLast(a[1..], last, c);
    }
  }

  /** Joining undoes splitting. */
  lemma {:induction false} JoinSplit(s: string, c: char)
    ensures Join(Split(s, c), [c]) == s
  {
    if s != [] {
      var rest := Split(s[1..], c);
      JoinSplit(s[1..], c);
      assert ([""] + rest)[1..] == rest;
      assert ([[s[0]] + rest[0]] + rest[1..])[1..] == rest[1..];
      assert s == [s[0]] + s[1..];
    }
  }

  /** A price key names exchange and symbol, where the exchange may have colons; a canonical key names them the other
      way round. */
  lemma TargetOfKey(exchange: string, symbol: string)
    requires ':' !in symbol
    ensures Target(Price, Key("price", exchange, symbol)) == PriceTarget(exchange, symbol)
    ensures Target(PriceCanon, Key("price_canon", symbol, exchange)) == CanonTarget(symbol, exchange)
  {
    hide Split, PriceTarget, CanonTarget, Join;
    JoinSplit(exchange, ':');
    var e := Split(exchange, ':');
    SplitFirst("price", exchange + ":" + symbol, ':');
    SplitLast(exchange, symbol, ':');
    assert Key("price", exchange, symbol) == "price" + [':'] + (exchange + [':'] + symbol);
    var parts := ["price"] + (e + [symbol]);
    assert parts[1..|parts| - 1] == e;
    SplitFirst("price_canon", symbol + ":" + exchange, ':');
    SplitFirst(symbol, exchange, ':');
    assert Key("price_canon", symbol, exchange) == "price_canon" + [':'] + (symbol + [':'] + exchange);
    var parts' := ["price_canon"] + ([symbol] + e);
    assert parts'[2..] == e;
  }

  lemma GateIsSettled()
    ensures NormalizeExchangeName(GATE) == GATE == ToLower(TrimSpace(GATE))
  {
    hide TrimSpace;
    TrimSpaceTrims(GATE);
    assert ToLower(GATE) == GATE;
  }

  /** Every rewrite is to Gate: only Gate has aliases. */
  lemma RewritesAreToGate(g: Group, key: string)
    requires Target(g, key).Some?
    ensures Target(g, key).value.exchange == GATE
  {
    hide Split, Join, Key, BybitToGateSymbol, TrimSpace, ToLower;
  }

  lemma EmptyAndBybit()
    ensures ToLower(TrimSpace("")) == "" && ToLower(TrimSpace("Bybit")) == "bybit"
  {
    TrimSpaceTrims("");
    TrimSpaceTrims("Bybit");
  }

  /** Only Gate's aliases, and Gate symbols without an underscore, are rewritten; a name that differs from its
      lower-case form only by case is not, although cleaning up mixed case is what the rewriting was written for. */
  lemma PriceTargetIff(exchange: string, symbol: string)
    ensures PriceTarget(exchange, symbol).Some? <==>
      var e := ToLower(TrimSpace(exchange));
      e in {"gateio", "gate-io", "gate_io", "gate-spot", "gate.io"} || (e == "gate" && '_' !in TrimSpace(symbol))
    ensures !PriceTarget("Bybit", symbol).Some?
  {
    hide Key, BybitToGateSymbol, TrimSpace, ToLower;
    EmptyAndBybit();
  }

  lemma CanonTargetIff(canon: string, exchange: string)
    ensures CanonTarget(canon, exchange).Some? <==>
      ToLower(TrimSpace(exchange)) in {"gateio", "gate-io", "gate_io", "gate-spot", "gate.io"}
    ensures !CanonTarget(canon, "Bybit").Some?
  {
    hide Key, TrimSpace, ToLower;
    EmptyAndBybit();
  }

  lemma CanonTargetForm(canon: string, exchange: string)
    requires CanonTarget(canon, exchange).Some?
    ensures CanonTarget(canon, exchange) == Some(Rewrite(Key("price_canon", canon, "gate"), "gate", ""))
  {
    hide Key, TrimSpace, ToLower;
  }

  /** A canonical key goes to Gate's key of its own symbol. */
  lemma CanonDestination(key: string)
    requires Target(PriceCanon, key).Some?
    ensures Split(Target(PriceCanon, key).value.dest, ':') == ["price_canon", Split(key, ':')[1], "gate"]
    ensures Target(PriceCanon, key).value.symbol == ""
  {
    var parts := Split(key, ':');
    CanonTargetForm(parts[1], Join(parts[2..], ":"));
    hide Split, Join, CanonTarget, Key;
    SplitThree("price_canon", parts[1], "gate");
  }

  /** So two of them meet exactly when their symbols agree. */
  lemma CanonDestinationsMeetIff(key: string, key': string)
    requires Target(PriceCanon, key).Some? && Target(PriceCanon, key').Some?
    ensures Target(PriceCanon, key).value.dest == Target(PriceCanon, key').value.dest <==>
      Split(key, ':')[1] == Split(key', ':')[1]
  {
    CanonDestination(key);
    CanonDestination(key');
    var parts, parts' := Split(key, ':'), Split(key', ':');
    CanonTargetForm(parts[1], Join(parts[2..], ":"));
    CanonTargetForm(parts'[1], Join(parts'[2..], ":"));
    hide Split, Join, CanonTarget, Key;
  }

  /** A price key goes to Gate's key of its own symbol: trimmed, and put in Gate's form unless it has an underscore,
      with the same letters. */
  lemma PriceDestination(key: string)
    requires Target(Price, key).Some?
    ensures
      var parts, target := Split(key, ':'), Target(Price, key).value;
      var symbol := TrimSpace(parts[|parts| - 1]);
      && Split(target.dest, ':') == ["price", "gate", target.symbol]
      && target.symbol == (if '_' in symbol then symbol else BybitToGateSymbol(ToUpper(symbol)))
      && Letters(target.symbol) == Letters(symbol)
  {
    hide Split, Join, NormalizeExchangeName, TrimSpace, BybitToGateSymbol, Letters;
    RewritesAreToGate(Price, key);
    var parts := Split(key, ':');
    var symbol := TrimSpace(parts[|parts| - 1]);
    TrimSpaceTrims(parts[|parts| - 1]);
    GateSymbolHasGateForm(symbol);
    SplitThree("price", "gate", Target(Price, key).value.symbol);
    if '_' !in symbol {
      GateKeepsLetters(ToUpper(symbol));
      LettersUpper(symbol);
    }
  }

  /** A Gate symbol in its final form: trimmed, and either underscored or too short to underscore. */
  predicate GateForm(s: string) {
    Trimmed(s) && ':' !in s && ('_' in s || (|s| < 5 && ToUpper(s) == s))
  }

  lemma GateSymbolHasGateForm(symbol: string)
    requires Trimmed(symbol) && ':' !in symbol
    ensures GateForm(if '_' !in symbol then BybitToGateSymbol(ToUpper(symbol)) else symbol)
  {
    hide SplitBefore, EndsWith;
    if '_' !in symbol {
      var u := ToUpper(symbol);
      assert forall c :: c in u ==> c != ':';
      if |u| >= 5 {
        SplitBeforeForm(u, 3);
        SplitBeforeForm(u, 4);
      }
    }
  }

  lemma SplitBeforeForm(u: string, n: nat)
    requires 0 < n < |u| && Trimmed(u) && ':' !in u
    ensures GateForm(SplitBefore(u, n, "_"))
  {
  }

  lemma ShortGateSymbolStays(s: string)
    requires |s| < 5 && ToUpper(s) == s
    ensures BybitToGateSymbol(ToUpper(s)) == s
  {
  }

  lemma GateFormTarget(s: string)
    requires GateForm(s)
    ensures PriceTarget(GATE, s).None? || PriceTarget(GATE, s).value.dest == Key("price", GATE, s)
  {
    hide Key, NormalizeExchangeName, TrimSpace, BybitToGateSymbol, ToUpper, ToLower, Trimmed;
    GateIsSettled();
    TrimSpaceTrims(s);
    if '_' !in s {
      ShortGateSymbolStays(s);
    }
  }

  /** No destination is itself rewritten. */
  lemma DestinationsStay(g: Group, key: string)
    requires Target(g, key).Some?
    ensures !Moves(g, Target(g, key).value.dest)
  {
    hide Key, NormalizeExchangeName, BybitToGateSymbol, TrimSpace, ToLower, ToUpper, Join, Trimmed;
    var parts := Split(key, ':');
    var n := |parts|;
    RewritesAreToGate(g, key);
    match g
    case Price =>
      var symbol := TrimSpace(parts[n - 1]);
      TrimSpaceTrims(parts[n - 1]);
      GateSymbolHasGateForm(symbol);
      var s := Target(g, key).value.symbol;
      TargetOfKey(GATE, s);
      GateFormTarget(s);
    case PriceCanon =>
      TargetOfKey(GATE, parts[1]);
      GateIsSettled();
  }

  /** A destination is in the group of its source, and the groups have no key in common. */
  lemma DestinationsInGroup(g: Group, key: string)
    requires Target(g, key).Some?
    ensures InGroup(g, Target(g, key).value.dest)
  {
    hide NormalizeExchangeName, BybitToGateSymbol, TrimSpace, ToLower, ToUpper, Join, Split;
  }

  lemma GroupsAreDisjoint(g: Group, g': Group, key: string)
    requires InGroup(g, key) && InGroup(g', key)
    ensures g == g'
  {
    assert InGroup(Price, key) ==> key[5] == (Prefix(Price) + ":")[5] == ':';
    assert InGroup(PriceCanon, key) ==> key[5] == (Prefix(PriceCanon) + ":")[5] == '_';
  }
}
