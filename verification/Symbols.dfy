/** Spot symbols: the id each venue is asked for, and the canonical form all of them come back to. */
module Symbols {
  import opened Sequences
  import opened Text

  /** strings.ReplaceAll of one character. */
  function ReplaceAll(s: string, c: char, repl: string): string {
    if s == [] then [] else (if s[0] == c then repl else [s[0]]) + ReplaceAll(s[1..], c, repl)
  }

  function NormalizeSpotSymbol(raw: string): string {
    var s := ToUpper(raw);
    var s := ReplaceAll(s, '-', "");
    var s := ReplaceAll(s, '_', "");
    var s := ReplaceAll(s, '/', "");
    var s := ReplaceAll(s, '.', "");
    TrimSpace(s)
  }

  predicate EndsWith(s: string, suffix: string) {
    |s| > |suffix| && s[|s| - |suffix|..] == suffix
  }

  function SplitBefore(s: string, n: nat, separator: string): string
    requires n <= |s|
  {
    s[..|s| - n] + separator + s[|s| - n..]
  }

  /** Gate wants BTC_USDT where Bybit says BTCUSDT. */
  function BybitToGateSymbol(bybit: string): string {
    if |bybit| < 5 then bybit
    else if EndsWith(bybit, "USDT") then SplitBefore(bybit, 4, "_")
    else if EndsWith(bybit, "USDC") then SplitBefore(bybit, 4, "_")
    else if EndsWith(bybit, "DAI") then SplitBefore(bybit, 3, "_")
    else if EndsWith(bybit, "BUSD") then SplitBefore(bybit, 4, "_")
    else SplitBefore(bybit, 4, "_")
  }

  function BitgetId(s: string): string {
    ToUpper(ReplaceAll(ReplaceAll(s, '-', ""), '_', ""))
  }

  function OkxId(s: string): string {
    var id := ToUpper(ReplaceAll(ReplaceAll(s, '_', "-"), '/', "-"));
    if '-' !in id && |id| > 4 then SplitBefore(id, 4, "-") else id
  }

  datatype Venue = Bybit | Gate | Bitget | Okx

  /** The id a venue's builder subscribes to for a configured symbol. */
  function VenueId(v: Venue, s: string): string {
    match v
    case Bybit => s
    case Gate => BybitToGateSymbol(s)
    case Bitget => BitgetId(s)
    case Okx => OkxId(s)
  }

  // ---------------------------------------------------------------- where a pair is split

  lemma SplitPlace(a: string, b: string, n: nat, c: char)
    requires n <= |a + b| && c !in a + b && b != []
    ensures SplitBefore(a + b, n, [c]) == a + [c] + b <==> |b| == n
  {
    var s, r, t := a + b, a + [c] + b, SplitBefore(a + b, n, [c]);
    if |b| == n {
      assert s[..|s| - n] == a && s[|s| - n..] == b;
    } else {
      assert r[|a|] == c && t[|s| - n] == c;
      assert n < |b| ==> r[|a|] == s[|a|] || t[|a|] == s[|a|];
      assert n > |b| ==> r[|s| - n] == s[|s| - n];
    }
  }

  /** Gate's form separates a pair where it should exactly when the pair has five letters and the quote has the
      length that is cut off. */
  lemma GateSplitsIff(base: string, quote: string)
    requires base != "" && quote != "" && '_' !in base && '_' !in quote
    ensures BybitToGateSymbol(base + quote) == base + "_" + quote <==>
      |base + quote| >= 5 && |quote| == if EndsWith(base + quote, "DAI") then 3 else 4
  {
    hide SplitBefore, EndsWith;
    var s := base + quote;
    if |s| >= 5 {
      SplitPlace(base, quote, 3, '_');
      SplitPlace(base, quote, 4, '_');
      if EndsWith(s, "DAI") {
        OnlyDai(s);
      }
    } else {
      assert |s| < |base + "_" + quote|;
    }
  }

  lemma OtherEnd(s: string, suffix: string)
    requires s != "" && suffix != "" && s[|s| - 1] != suffix[|suffix| - 1]
    ensures !EndsWith(s, suffix)
  {
    if |s| > |suffix| {
      assert s[|s| - |suffix|..][|suffix| - 1] == s[|s| - 1];
    }
  }

  lemma OnlyDai(s: string)
    requires EndsWith(s, "DAI")
    ensures !EndsWith(s, "USDT") && !EndsWith(s, "USDC") && !EndsWith(s, "BUSD")
  {
    assert s[|s| - 3..][2] == s[|s| - 1];
    OtherEnd(s, "USDT");
    OtherEnd(s, "USDC");
    OtherEnd(s, "BUSD");
  }

  /** So each common quote is split off every base, but for a one-letter base before DAI. */
  lemma GateSplitsCommonQuotes(base: string, quote: string)
    requires base != "" && '_' !in base && quote in {"USDT", "USDC", "DAI", "BUSD"}
    ensures BybitToGateSymbol(base + quote) == base + "_" + quote <==> |base| > 1 || quote != "DAI"
  {
    hide BybitToGateSymbol;
    GateSplitsIff(base, quote);
    var s := base + quote;
    assert s[|s| - |quote|..] == quote && s[|s| - 1] == quote[|quote| - 1];
    if quote != "DAI" {
      OtherEnd(s, "DAI");
    }
  }

  predicate Unseparated(s: string) {
    '-' !in s && '_' !in s && '/' !in s
  }

  lemma {:induction false} ReplaceNothing(s: string, c: char, repl: string)
    requires c !in s
    ensures ReplaceAll(s, c, repl) == s
  {
    if s != [] {
      ReplaceNothing(s[1..], c, repl);
    }
  }

  lemma OkxOfUnseparated(s: string)
    requires Unseparated(s)
    ensures '-' !in ToUpper(s)
    ensures OkxId(s) == if |s| > 4 then SplitBefore(ToUpper(s), 4, "-") else ToUpper(s)
  {
    hide SplitBefore;
    ReplaceNothing(s, '_', "-");
    ReplaceNothing(s, '/', "-");
    forall i | 0 <= i < |s| ensures ToUpper(s)[i] != '-' { assert s[i] in s; }
  }

  /** OKX's id separates an unseparated pair where it should exactly when the quote has four letters. */
  lemma OkxSplitsIff(base: string, quote: string)
    requires base != "" && quote != "" && Unseparated(base) && Unseparated(quote)
    ensures OkxId(base + quote) == ToUpper(base) + "-" + ToUpper(quote) <==> |quote| == 4
  {
    hide OkxId, SplitBefore;
    OkxOfUnseparated(base + quote);
    assert ToUpper(base + quote) == ToUpper(base) + ToUpper(quote);
    if |base + quote| > 4 {
      SplitPlace(ToUpper(base), ToUpper(quote), 4, '-');
    }
  }

  /** The id each venue is asked for: of an unseparated pair in a four-letter quote, Bybit gets it as it is, Gate with
      an underscore, Bitget in upper case, OKX in upper case with a dash. */
  lemma VenueForms(base: string, quote: string)
    requires base != "" && Unseparated(base) && quote in {"USDT", "USDC", "BUSD"}
    ensures VenueId(Bybit, base + quote) == base + quote
    ensures VenueId(Gate, base + quote) == base + "_" + quote
    ensures VenueId(Bitget, base + quote) == ToUpper(base) + quote
    ensures VenueId(Okx, base + quote) == ToUpper(base) + "-" + quote
  {
    hide BybitToGateSymbol, OkxId, SplitBefore, ReplaceAll, ToUpper;
    GateSplitsCommonQuotes(base, quote);
    OkxSplitsIff(base, quote);
    ReplaceNothing(base + quote, '-', "");
    ReplaceNothing(base + quote, '_', "");
    UpperConcat(base, quote);
    UpperQuote(quote);
  }

  lemma UpperQuote(quote: string)
    requires quote in {"USDT", "USDC", "BUSD"}
    ensures ToUpper(quote) == quote
  {
  }

  lemma UpperConcat(a: string, b: string)
    ensures ToUpper(a + b) == ToUpper(a) + ToUpper(b)
  {
  }

  lemma {:induction false} ReplaceConcat(a: string, b: string, c: char, repl: string)
    ensures ReplaceAll(a + b, c, repl) == ReplaceAll(a, c, repl) + ReplaceAll(b, c, repl)
  {
    if a == [] {
      assert a + b == b;
    } else {
      assert (a + b)[1..] == a[1..] + b;
      ReplaceConcat(a[1..], b, c, repl);
    }
  }

  /** A separated pair keeps its place of separation at OKX, and loses a dash or an underscore at Bitget. */
  lemma SeparatedVenueForms(base: string, separator: char, quote: string)
    requires Unseparated(base) && Unseparated(quote) && separator in {'-', '_', '/'}
    ensures VenueId(Okx, base + [separator] + quote) == ToUpper(base) + "-" + ToUpper(quote)
    ensures separator != '/' ==> VenueId(Bitget, base + [separator] + quote) == ToUpper(base) + ToUpper(quote)
  {
    OkxSeparated(base, separator, quote);
    if separator != '/' {
      BitgetSeparated(base, separator, quote);
    }
    hide *;
  }

  lemma BitgetSeparated(base: string, separator: char, quote: string)
    requires Unseparated(base) && Unseparated(quote) && separator in {'-', '_'}
    ensures BitgetId(base + [separator] + quote) == ToUpper(base) + ToUpper(quote)
  {
    hide ReplaceAll, ToUpper;
    ReplaceAround(base, separator, quote, '-', "");
    ReplaceAround(base, separator, quote, '_', "");
    assert base + "" + quote == base + quote;
    ReplaceNothing(base + quote, '_', "");
    UpperConcat(base, quote);
  }

  lemma OkxSeparated(base: string, separator: char, quote: string)
    requires Unseparated(base) && Unseparated(quote) && separator in {'-', '_', '/'}
    ensures OkxId(base + [separator] + quote) == ToUpper(base) + "-" + ToUpper(quote)
  {
    hide ReplaceAll, SplitBefore;
    ReplaceAround(base, separator, quote, '_', "-");
    ReplaceAround(base, separator, quote, '/', "-");
    ReplaceAround(base, '-', quote, '/', "-");
    UpperConcat(base + "-", quote);
    UpperConcat(base, "-");
    assert ToUpper("-") == "-";
    hide ToUpper;
    assert (ToUpper(base) + "-" + ToUpper(quote))[|base|] == '-';
  }

  lemma ReplaceAround(a: string, d: char, b: string, c: char, repl: string)
    requires c !in a && c !in b
    ensures ReplaceAll(a + [d] + b, c, repl) == if d == c then a + repl + b else a + [d] + b
  {
    ReplaceOne(d, c, repl);
    hide ReplaceAll;
    ReplaceConcat(a + [d], b, c, repl);
    ReplaceConcat(a, [d], c, repl);
    ReplaceNothing(a, c, repl);
    ReplaceNothing(b, c, repl);
  }

  lemma ReplaceOne(d: char, c: char, repl: string)
    ensures ReplaceAll([d], c, repl) == if d == c then repl else [d]
  {
    assert [d][1..] == [];
    assert ReplaceAll([], c, repl) == [];
  }

  // ---------------------------------------------------------------- the canonical form

  predicate IsSeparator(c: char) {
    c == '-' || c == '_' || c == '/' || c == '.'
  }

  /** The upper-case letters of a symbol without its separators. */
  function Letters(s: string): string {
    if s == [] then [] else (if IsSeparator(s[0]) then [] else [UpperChar(s[0])]) + Letters(s[1..])
  }

  /** A separator has no letters, any other character its upper case. */
  lemma LettersOfOne(c: char)
    ensures Letters([c]) == if c in {'-', '_', '/', '.'} then [] else [UpperChar(c)]
  {
    assert [c][1..] == [];
  }

  /** Letters are taken one by one. */
  lemma {:induction false} LettersConcat(a: string, b: string)
    ensures Letters(a + b) == Letters(a) + Letters(b)
  {
    if a == [] {
      assert a + b == b;
    } else {
      assert (a + b)[1..] == a[1..] + b;
      LettersConcat(a[1..], b);
    }
  }

  lemma {:induction false} LettersReplace(s: string, c: char, repl: string)
    requires IsSeparator(c) && Letters(repl) == []
    ensures Letters(ReplaceAll(s, c, repl)) == Letters(s)
  {
    if s != [] {
      LettersReplace(s[1..], c, repl);
      var head := if s[0] == c then repl else [s[0]];
      LettersConcat(head, ReplaceAll(s[1..], c, repl));
      assert [s[0]][1..] == [];
    }
  }

  lemma {:induction false} LettersUpper(s: string)
    ensures Letters(ToUpper(s)) == Letters(s)
  {
    if s != [] {
      LettersUpper(s[1..]);
      assert ToUpper(s)[1..] == ToUpper(s[1..]);
    }
  }

  predicate Clean(s: string) {
    forall i :: 0 <= i < |s| ==> !IsSeparator(s[i]) && UpperChar(s[i]) == s[i]
  }

  lemma {:induction false} LettersAreClean(s: string)
    ensures Clean(Letters(s))
    ensures Clean(s) ==> Letters(s) == s
  {
    if s != [] {
      LettersAreClean(s[1..]);
      assert Clean(s) ==> Clean(s[1..]);
    }
  }

  lemma {:induction false} ReplaceRemoves(s: string, c: char, d: char)
    ensures c !in ReplaceAll(s, c, "")
    ensures d !in s ==> d !in ReplaceAll(s, c, "")
    ensures (forall i :: 0 <= i < |s| ==> UpperChar(s[i]) == s[i]) ==>
      forall i :: 0 <= i < |ReplaceAll(s, c, "")| ==> UpperChar(ReplaceAll(s, c, "")[i]) == ReplaceAll(s, c, "")[i]
  {
    if s != [] {
      ReplaceRemoves(s[1..], c, d);
    }
  }

  lemma SeparatorsHaveNoLetters()
    ensures Letters("") == [] && Letters("-") == [] && Letters("_") == []
  {
  }

  /** Normalizing is: take the letters, trim blanks. */
  lemma NormalizeIsLetters(raw: string)
    ensures NormalizeSpotSymbol(raw) == TrimSpace(Letters(raw))
  {
    hide ReplaceAll, Letters, TrimSpace, ToUpper;
    SeparatorsHaveNoLetters();
    var s0 := ToUpper(raw);
    var s1 := ReplaceAll(s0, '-', "");
    var s2 := ReplaceAll(s1, '_', "");
    var s3 := ReplaceAll(s2, '/', "");
    var s4 := ReplaceAll(s3, '.', "");
    LettersUpper(raw);
    LettersReplace(s0, '-', "");
    LettersReplace(s1, '_', "");
    LettersReplace(s2, '/', "");
    LettersReplace(s3, '.', "");
    ReplaceRemoves(s0, '-', '-');
    ReplaceRemoves(s1, '_', '-');
    ReplaceRemoves(s2, '/', '-');
    ReplaceRemoves(s2, '/', '_');
    ReplaceRemoves(s3, '.', '-');
    ReplaceRemoves(s3, '.', '_');
    ReplaceRemoves(s3, '.', '/');
    assert Clean(s4);
    LettersAreClean(s4);
  }

  /** The canonical symbol is the letters without the blanks around them. */
  lemma NormalizeDropsOnlyBlanks(raw: string)
    ensures exists before, after ::
      Blank(before) && Blank(after) && Letters(raw) == before + NormalizeSpotSymbol(raw) + after
  {
    hide NormalizeSpotSymbol, Letters, TrimSpace, Blank;
    NormalizeIsLetters(raw);
    TrimSpaceDropsBlanks(Letters(raw));
  }

  lemma NormalizeIsIdempotent(raw: string)
    ensures NormalizeSpotSymbol(NormalizeSpotSymbol(raw)) == NormalizeSpotSymbol(raw)
    ensures Trimmed(NormalizeSpotSymbol(raw))
    ensures forall c :: c in NormalizeSpotSymbol(raw) ==> c !in {'-', '_', '/', '.'} && !('a' <= c <= 'z')
  {
    hide NormalizeSpotSymbol, TrimSpace, Letters;
    NormalizeIsLetters(raw);
    var n := NormalizeSpotSymbol(raw);
    NormalizeIsLetters(n);
    LettersAreClean(raw);
    TrimSpaceTrims(Letters(raw));
    assert Clean(n) by {
      forall i | 0 <= i < |n| ensures !IsSeparator(n[i]) && UpperChar(n[i]) == n[i] { assert n[i] in Letters(raw); }
    }
    LettersAreClean(n);
    TrimSpaceTrims(n);
  }

  lemma LettersOfSplit(s: string, n: nat, separator: string)
    requires n <= |s| && Letters(separator) == []
    ensures Letters(SplitBefore(s, n, separator)) == Letters(s)
  {
    var a, b := s[..|s| - n], s[|s| - n..];
    assert s == a + b;
    LettersConcat(a, b);
    LettersConcat(a + separator, b);
    LettersConcat(a, separator);
  }

  lemma GateKeepsLetters(s: string)
    ensures Letters(BybitToGateSymbol(s)) == Letters(s)
  {
    hide SplitBefore, EndsWith;
    SeparatorsHaveNoLetters();
    if |s| >= 5 {
      LettersOfSplit(s, 3, "_");
      LettersOfSplit(s, 4, "_");
    }
  }

  lemma BitgetKeepsLetters(s: string)
    ensures Letters(BitgetId(s)) == Letters(s)
  {
    hide ReplaceAll, ToUpper;
    SeparatorsHaveNoLetters();
    LettersReplace(s, '-', "");
    LettersReplace(ReplaceAll(s, '-', ""), '_', "");
    LettersUpper(ReplaceAll(ReplaceAll(s, '-', ""), '_', ""));
  }

  lemma OkxKeepsLetters(s: string)
    ensures Letters(OkxId(s)) == Letters(s)
  {
    hide ReplaceAll, ToUpper, SplitBefore;
    SeparatorsHaveNoLetters();
    LettersReplace(s, '_', "-");
    LettersReplace(ReplaceAll(s, '_', "-"), '/', "-");
    var dashed := ReplaceAll(ReplaceAll(s, '_', "-"), '/', "-");
    LettersUpper(dashed);
    if |ToUpper(dashed)| > 4 {
      LettersOfSplit(ToUpper(dashed), 4, "-");
    }
  }

  /** Every venue's id for a pair normalizes to the same canonical symbol as the pair itself. */
  lemma VenuesAgree(v: Venue, s: string)
    ensures NormalizeSpotSymbol(VenueId(v, s)) == NormalizeSpotSymbol(s)
  {
    hide NormalizeSpotSymbol, BybitToGateSymbol, BitgetId, OkxId;
    NormalizeIsLetters(s);
    NormalizeIsLetters(VenueId(v, s));
    match v
    case Bybit =>
    case Gate => GateKeepsLetters(s);
    case Bitget => BitgetKeepsLetters(s);
    case Okx => OkxKeepsLetters(s);
  }

  // ---------------------------------------------------------------- batched subscription

  /** The ids of all configured symbols. */
  function VenueIds(v: Venue, symbols: seq<string>): (ids: seq<string>)
    ensures |ids| == |symbols|
    ensures forall i :: 0 <= i < |symbols| ==> ids[i] == VenueId(v, symbols[i])
  {
    if symbols == [] then [] else VenueIds(v, symbols[..|symbols| - 1]) + [VenueId(v, symbols[|symbols| - 1])]
  }

  /** Full requests and a pending part of one: together, the ids of the first k symbols in order. */
  ghost predicate Issued(v: Venue, symbols: seq<string>, k: nat, size: nat, sent: seq<seq<string>>, batch: seq<string>)
    requires k <= |symbols|
  {
    && Concat(sent) + batch == VenueIds(v, symbols[..k])
    && forall i :: 0 <= i < |sent| ==> |sent[i]| == size
  }

  lemma OneMoreId(v: Venue, symbols: seq<string>, k: nat, size: nat, sent: seq<seq<string>>, batch: seq<string>)
    requires k < |symbols| && Issued(v, symbols, k, size, sent, batch)
    ensures Issued(v, symbols, k + 1, size, sent, batch + [VenueId(v, symbols[k])])
  {
    hide VenueId, Concat;
    assert symbols[..k + 1][..k] == symbols[..k];
  }

  lemma PushKeepsIssued(v: Venue, symbols: seq<string>, k: nat, size: nat, sent: seq<seq<string>>, batch: seq<string>)
    requires k <= |symbols| && Issued(v, symbols, k, size, sent, batch) && |batch| == size
    ensures Issued(v, symbols, k, size, sent + [batch], [])
  {
    hide VenueId, VenueIds;
    assert (sent + [batch])[..|sent|] == sent;
  }

  lemma AllIssued(v: Venue, symbols: seq<string>, size: nat, sent: seq<seq<string>>, batch: seq<string>)
    requires Issued(v, symbols, |symbols|, size, sent, batch) && |batch| < size
    ensures
      var all := if batch == [] then sent else sent + [batch];
      && Concat(all) == VenueIds(v, symbols)
      && (forall i :: 0 <= i < |all| ==> 0 < |all[i]| <= size)
      && forall i :: 0 <= i < |all| - 1 ==> |all[i]| == size
  {
    hide VenueId, VenueIds;
    assert symbols[..|symbols|] == symbols;
    assert (sent + [batch])[..|sent|] == sent;
  }

  /** The subscription loop of the batching venues: the requests sent, in order. */
  method SubscribeAll(v: Venue, symbols: seq<string>, batchSize: nat) returns (sent: seq<seq<string>>)
    requires batchSize > 0
    ensures Concat(sent) == VenueIds(v, symbols)
    ensures forall i :: 0 <= i < |sent| ==> 0 < |sent[i]| <= batchSize
    ensures forall i :: 0 <= i < |sent| - 1 ==> |sent[i]| == batchSize
  {
    sent := [];
    var batch := [];
    assert Issued(v, symbols, 0, batchSize, sent, batch);
    hide *;
    for k := 0 to |symbols|
      invariant Issued(v, symbols, k, batchSize, sent, batch) && |batch| < batchSize
    {
      OneMoreId(v, symbols, k, batchSize, sent, batch);
      batch := batch + [VenueId(v, symbols[k])];
      if |batch| >= batchSize {
        PushKeepsIssued(v, symbols, k + 1, batchSize, sent, batch);
        sent, batch := Push(sent, batch);
      }
    }
    AllIssued(v, symbols, batchSize, sent, batch);
    sent, batch := Push(sent, batch);
  }

  /** Sends a pending batch, if there is one. */
  method Push(sent: seq<seq<string>>, batch: seq<string>) returns (sent': seq<seq<string>>, batch': seq<string>)
    ensures batch' == [] && sent' == if batch == [] then sent else sent + [batch]
    ensures Concat(sent') == Concat(sent) + batch
  {
    if batch == [] {
      return sent, batch;
    }
    sent', batch' := sent + [batch], [];
    assert sent'[..|sent|] == sent;
  }
}
