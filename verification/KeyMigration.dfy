/** Rewriting legacy price hashes in Redis: each destination ends up with the newest of what it and its sources held. */
module KeyMigration {
  import opened Options
  import opened ExchangeKeys

  type Hash = map<string, string>
  /** Redis keeps no empty hash: a missing key reads as the empty one. */
  type Store = map<string, Hash>

  function Get(m: Store, key: string): Hash {
    if key in m then m[key] else map[]
  }

  // ---------------------------------------------------------------- timestamps

  predicate IsDigits(s: string) {
    s != [] && forall i :: 0 <= i < |s| ==> '0' <= s[i] <= '9'
  }

  function DigitsValue(s: string): nat
    requires forall i :: 0 <= i < |s| ==> '0' <= s[i] <= '9'
  {
    if s == [] then 0 else DigitsValue(s[..|s| - 1]) * 10 + (s[|s| - 1] as int - '0' as int)
  }

  /** strconv.ParseInt(s, 10, 64). */
  function ParseInt(s: string): Option<int> {
    var negative := s != [] && s[0] == '-';
    var digits := if s != [] && (s[0] == '-' || s[0] == '+') then s[1..] else s;
    if !IsDigits(digits) then None else
    var n: int := DigitsValue(digits);
    var v := if negative then -n else n;
    if -0x8000_0000_0000_0000 <= v < 0x8000_0000_0000_0000 then Some(v) else None
  }

  /** fmt.Sprint of a non-negative integer. */
  function Decimal(n: nat): (s: string)
    ensures IsDigits(s)
    decreases n
  {
    (if n < 10 then [] else Decimal(n / 10)) + [(n % 10 + '0' as int) as char]
  }

  lemma {:induction false} DecimalValue(n: nat)
    ensures DigitsValue(Decimal(n)) == n
    decreases n
  {
    var s := Decimal(n);
    if n >= 10 {
      DecimalValue(n / 10);
      assert s[..|s| - 1] == Decimal(n / 10);
    } else {
      assert s[..|s| - 1] == [];
    }
  }

  /** A timestamp written by a worker reads back. */
  lemma TimestampRoundTrip(n: nat)
    requires n < 0x8000_0000_0000_0000
    ensures ParseInt(Decimal(n)) == Some(n)
  {
    DecimalValue(n);
  }

  /** Signed decimals are read too, within 64 bits. */
  lemma SignedDecimals(n: nat)
    ensures ParseInt(Decimal(n)) == ParseInt("+" + Decimal(n)) == if n < 0x8000_0000_0000_0000 then Some(n) else None
    ensures
      var minus: int := -(n as int);
      ParseInt("-" + Decimal(n)) == if n <= 0x8000_0000_0000_0000 then Some(minus) else None
  {
    DecimalValue(n);
    hide DigitsValue, Decimal;
    assert ("+" + Decimal(n))[1..] == ("-" + Decimal(n))[1..] == Decimal(n);
  }

  /** Nothing but digits after at most one sign is read. */
  lemma ParsedHasDigits(s: string)
    requires ParseInt(s).Some?
    ensures s != [] && (s[0] in {'+', '-'} ==> |s| > 1)
    ensures forall i :: 0 <= i < |s| ==> s[i] in "0123456789" || (i == 0 && s[0] in {'+', '-'})
  {
    var digits := if s[0] == '-' || s[0] == '+' then s[1..] else s;
    forall i | 0 <= i < |s| && !(i == 0 && s[0] in {'+', '-'}) ensures s[i] in "0123456789" {
      assert s[i] == digits[if digits == s then i else i - 1];
      assert "0123456789"[s[i] as int - '0' as int] == s[i];
    }
  }

  function ParseTimestamp(fields: Hash): int {
    if "timestamp" in fields then
      match ParseInt(fields["timestamp"])
      case Some(ts) => ts
      case None => 0
    else 0
  }

  /** A hash with a price and a time that is not negative; a time that is missing or does not parse reads as zero. */
  predicate Quoted(h: Hash) {
    "price" in h && ParseTimestamp(h) >= 0
  }

  // ---------------------------------------------------------------- one key

  function Relabelled(h: Hash, r: Rewrite): Hash {
    var h := h["exchange" := r.exchange];
    if r.symbol != "" then h["symbol" := r.symbol] else h
  }

  /** The destination's hash after a non-empty source hash has been merged into it. */
  function Merged(src: Hash, dest: Hash, r: Rewrite): Hash {
    if dest == map[] || ParseTimestamp(Relabelled(src, r)) >= ParseTimestamp(dest) then dest + Relabelled(src, r)
    else if "exchange" in dest && dest["exchange"] == r.exchange then dest
    else Relabelled(dest, r)
  }

  function Field(h: Hash, f: string): Option<string> {
    if f in h then Some(h[f]) else None
  }

  /** Field by field, a merge takes what the later source has, and otherwise keeps what the destination has; it names
      the exchange, and it names a new symbol unless a later destination already named the exchange. */
  lemma MergedFields(src: Hash, dest: Hash, r: Rewrite, f: string)
    ensures
      var newer := dest == map[] || ParseTimestamp(src) >= ParseTimestamp(dest);
      Field(Merged(src, dest, r), f) ==
        if f == "exchange" then Some(r.exchange)
        else if f == "symbol" && r.symbol != "" && (newer || Field(dest, "exchange") != Some(r.exchange)) then
          Some(r.symbol)
        else if newer && f in src then Some(src[f])
        else Field(dest, f)
  {
    RelabelledTimestamp(src, r);
    hide ParseTimestamp;
  }

  function MergeAndDelete(m: Store, key: string, r: Rewrite): Store {
    if key == r.dest then m
    else if Get(m, key) == map[] then m - {key}
    else m[r.dest := Merged(m[key], Get(m, r.dest), r)] - {key}
  }

  function NormalizeKey(g: Group, m: Store, key: string): Store {
    match Target(g, key)
    case None => m
    case Some(r) => MergeAndDelete(m, key, r)
  }

  function NormalizeKeys(g: Group, m: Store, keys: seq<string>): Store
    decreases |keys|
  {
    if keys == [] then m else NormalizeKeys(g, NormalizeKey(g, m, keys[0]), keys[1..])
  }

  // ---------------------------------------------------------------- what a whole scan does

  /** Redis keeps no empty hash. */
  ghost predicate NoEmptyHash(m: Store) {
    forall k :: k in m ==> m[k] != map[]
  }

  /** A scanned key whose hash is merged into `x`. */
  ghost predicate FeedsInto(g: Group, keys: seq<string>, s: string, x: string) {
    s in keys && Moves(g, s) && Target(g, s).value.dest == x
  }

  /** A key whose hash counts towards what `x` ends up with. */
  ghost predicate Contributes(g: Group, m: Store, keys: seq<string>, s: string, x: string) {
    s in m && (s == x || FeedsInto(g, keys, s, x))
  }

  /** Every hash that counts towards `x` is a quote. */
  ghost predicate SourcesQuoted(g: Group, m: Store, keys: seq<string>, x: string) {
    forall s :: Contributes(g, m, keys, s, x) ==> Quoted(m[s])
  }

  lemma RelabelledTimestamp(h: Hash, r: Rewrite)
    ensures ParseTimestamp(Relabelled(h, r)) == ParseTimestamp(h)
    ensures "timestamp" in Relabelled(h, r) <==> "timestamp" in h
    ensures "price" in Relabelled(h, r) <==> "price" in h
    ensures "price" in h ==> Relabelled(h, r)["price"] == h["price"]
  {
  }

  /** A merge ends up with the later of the two times, exactly unless a source without a time meets a destination
      from before 1970: the destination's field then stays. */
  lemma MergedTimeIff(src: Hash, dest: Hash, r: Rewrite)
    ensures
      var t, u := ParseTimestamp(src), ParseTimestamp(dest);
      ParseTimestamp(Merged(src, dest, r)) == (if dest == map[] || t >= u then t else u) <==>
        "timestamp" in src || u >= 0
  {
    hide ParseInt;
    RelabelledTimestamp(src, r);
    RelabelledTimestamp(dest, r);
    SumTimestamp(dest, Relabelled(src, r));
  }

  lemma SumTimestamp(a: Hash, b: Hash)
    ensures ParseTimestamp(a + b) == if "timestamp" in b then ParseTimestamp(b) else ParseTimestamp(a)
  {
  }

  /** Merging quotes keeps the newer of the two, price and all. */
  lemma MergedIsNewest(src: Hash, dest: Hash, r: Rewrite)
    requires Quoted(src) && (dest == map[] || Quoted(dest))
    ensures
      var h := Merged(src, dest, r);
      && Quoted(h) && "exchange" in h && h["exchange"] == r.exchange
      && ParseTimestamp(h) >= ParseTimestamp(src) && (dest != map[] ==> ParseTimestamp(h) >= ParseTimestamp(dest))
      && ((ParseTimestamp(h) == ParseTimestamp(src) && h["price"] == src["price"])
          || (dest != map[] && ParseTimestamp(h) == ParseTimestamp(dest) && h["price"] == dest["price"]))
  {
    MergedTimeIff(src, dest, r);
    RelabelledTimestamp(src, r);
    RelabelledTimestamp(dest, r);
    assert ParseTimestamp(map[]) == 0;
    hide ParseTimestamp;
    assert "exchange" in Relabelled(src, r) && "exchange" in Relabelled(dest, r);
  }

  lemma StepKeepsNoEmpty(g: Group, m: Store, k: string)
    requires NoEmptyHash(m)
    ensures NoEmptyHash(NormalizeKey(g, m, k))
  {
    hide ParseTimestamp, Target;
    if k in m && Target(g, k).Some? {
      var r := Target(g, k).value;
      assert "exchange" in Relabelled(m[k], r) && "exchange" in Relabelled(Get(m, r.dest), r);
      assert Merged(m[k], Get(m, r.dest), r) != map[];
    }
  }

  /** What one scanned key does to the store, key by key. */
  lemma StepEffect(g: Group, m: Store, k: string, x: string)
    requires NoEmptyHash(m)
    ensures
      var m' := NormalizeKey(g, m, k);
      if Moves(g, k) && x == k then x !in m'
      else if Moves(g, k) && k in m && x == Target(g, k).value.dest then
        x in m' && m'[x] == Merged(m[k], Get(m, x), Target(g, k).value)
      else Get(m', x) == Get(m, x) && (x in m' <==> x in m)
  {
    hide Merged, Target;
  }

  /** A scan touches nothing but the keys it moves and the keys it moves them to. */
  lemma {:induction false} ScanTouchesOnly(g: Group, m: Store, keys: seq<string>, x: string)
    requires NoEmptyHash(m)
    requires !(x in keys && Moves(g, x))
    requires forall s :: s in m ==> !FeedsInto(g, keys, s, x)
    ensures Get(NormalizeKeys(g, m, keys), x) == Get(m, x)
    ensures x in NormalizeKeys(g, m, keys) <==> x in m
    decreases |keys|
  {
    hide Merged, Target, NormalizeKey;
    if keys != [] {
      var k := keys[0];
      StepKeepsNoEmpty(g, m, k);
      forall s | s in NormalizeKey(g, m, k) ensures !FeedsInto(g, keys[1..], s, x) {
        StepEffect(g, m, k, s);
        if Moves(g, k) && k in m && s == Target(g, k).value.dest {
          DestinationsStay(g, k);
        }
      }
      StepEffect(g, m, k, x);
      ScanTouchesOnly(g, NormalizeKey(g, m, k), keys[1..], x);
    }
  }

  /** A moved key is gone after the scan, whatever the store holds. */
  lemma {:induction false} ScanRemovesSources(g: Group, m: Store, keys: seq<string>, x: string)
    requires Moves(g, x) && (x in keys || x !in m)
    ensures x !in NormalizeKeys(g, m, keys)
    decreases |keys|
  {
    hide Target, NormalizeKey;
    if keys != [] {
      if x == keys[0] || x !in m {
        SourcesStayAway(g, m, keys[0], x);
      }
      ScanRemovesSources(g, NormalizeKey(g, m, keys[0]), keys[1..], x);
    }
  }

  lemma SourcesStayAway(g: Group, m: Store, k: string, x: string)
    requires Moves(g, x) && (x == k || x !in m)
    ensures x !in NormalizeKey(g, m, k)
  {
    hide Target, Merged;
    if Target(g, k).Some? {
      DestinationsStay(g, k);
    }
  }

  /** A settled key ends up with the newest timestamp of all that contribute to it, and a price of that time. */
  ghost predicate HoldsNewest(g: Group, m: Store, keys: seq<string>, x: string, h: Hash) {
    && Quoted(h)
    && (forall s :: Contributes(g, m, keys, s, x) ==> ParseTimestamp(h) >= ParseTimestamp(m[s]))
    && exists s :: Contributes(g, m, keys, s, x)
                   && ParseTimestamp(h) == ParseTimestamp(m[s]) && "price" in m[s] && h["price"] == m[s]["price"]
  }

  /** A step on a key that is not there, or not to be moved, changes nothing. */
  lemma IdleStep(g: Group, m: Store, k: string)
    requires !(Moves(g, k) && k in m)
    ensures NormalizeKey(g, m, k) == m
  {
    hide Target;
  }

  /** What contributes to a settled key survives a step, or is merged into the key by it. */
  lemma ContributionsSurvive(g: Group, m: Store, keys: seq<string>, s: string, x: string)
    requires NoEmptyHash(m) && keys != [] && !Moves(g, x) && Contributes(g, m, keys, s, x)
    ensures
      var k, m' := keys[0], NormalizeKey(g, m, keys[0]);
      if s == k && Moves(g, k) then x == Target(g, k).value.dest && Contributes(g, m', keys[1..], x, x)
      else Contributes(g, m', keys[1..], s, x) && (s != x ==> Get(m', s) == Get(m, s))
  {
    hide Merged, Target, NormalizeKey;
    StepEffect(g, m, keys[0], s);
    StepEffect(g, m, keys[0], x);
    if Moves(g, keys[0]) {
      DestinationsStay(g, keys[0]);
    }
  }

  /** Nothing new contributes after a step, except the merged hash of the key itself. */
  lemma ContributionsComeFrom(g: Group, m: Store, keys: seq<string>, s: string, x: string)
    requires NoEmptyHash(m) && keys != [] && !Moves(g, x)
    requires Contributes(g, NormalizeKey(g, m, keys[0]), keys[1..], s, x)
    ensures s != x ==> Contributes(g, m, keys, s, x) && Get(NormalizeKey(g, m, keys[0]), s) == Get(m, s)
    ensures s == x ==> x in m || (Moves(g, keys[0]) && keys[0] in m && x == Target(g, keys[0]).value.dest)
  {
    hide Merged, Target, NormalizeKey;
    StepEffect(g, m, keys[0], s);
    if Moves(g, keys[0]) {
      DestinationsStay(g, keys[0]);
    }
  }

  lemma SourcesStayQuoted(g: Group, m: Store, keys: seq<string>, x: string)
    requires NoEmptyHash(m) && keys != [] && !Moves(g, x) && SourcesQuoted(g, m, keys, x)
    ensures SourcesQuoted(g, NormalizeKey(g, m, keys[0]), keys[1..], x)
  {
    hide Quoted, Target, NormalizeKey, Merged;
    var k, m' := keys[0], NormalizeKey(g, m, keys[0]);
    StepEffect(g, m, k, x);
    forall s | Contributes(g, m', keys[1..], s, x) ensures Quoted(m'[s]) {
      ContributionsComeFrom(g, m, keys, s, x);
      if s == x && Moves(g, k) && k in m && x == Target(g, k).value.dest {
        assert Contributes(g, m, keys, k, x) && (x in m ==> Contributes(g, m, keys, x, x));
        MergedIsNewest(m[k], Get(m, x), Target(g, k).value);
      }
    }
  }

  lemma NewestStep(g: Group, m: Store, keys: seq<string>, x: string, h: Hash)
    requires NoEmptyHash(m) && keys != [] && !Moves(g, x) && SourcesQuoted(g, m, keys, x)
    requires HoldsNewest(g, NormalizeKey(g, m, keys[0]), keys[1..], x, h)
    ensures HoldsNewest(g, m, keys, x, h)
  {
    hide Target, NormalizeKey, ParseTimestamp, Merged;
    var k, m' := keys[0], NormalizeKey(g, m, keys[0]);
    StepEffect(g, m, k, x);
    if Moves(g, k) && k in m && x == Target(g, k).value.dest {
      assert Contributes(g, m, keys, k, x) && (x in m ==> Contributes(g, m, keys, x, x));
      MergedIsNewest(m[k], Get(m, x), Target(g, k).value);
      assert Contributes(g, m', keys[1..], x, x);
    }
    forall s | Contributes(g, m, keys, s, x)
      ensures ParseTimestamp(h) >= ParseTimestamp(m[s])
    {
      ContributionsSurvive(g, m, keys, s, x);
    }
    var s :| Contributes(g, m', keys[1..], s, x)
             && ParseTimestamp(h) == ParseTimestamp(m'[s]) && "price" in m'[s] && h["price"] == m'[s]["price"];
    NewestSource(g, m, keys, s, x, h);
  }

  lemma NewestSource(g: Group, m: Store, keys: seq<string>, s: string, x: string, h: Hash)
    requires NoEmptyHash(m) && keys != [] && !Moves(g, x) && SourcesQuoted(g, m, keys, x)
    requires Contributes(g, NormalizeKey(g, m, keys[0]), keys[1..], s, x)
    requires
      var m' := NormalizeKey(g, m, keys[0]);
      ParseTimestamp(h) == ParseTimestamp(m'[s]) && "price" in m'[s] && "price" in h && h["price"] == m'[s]["price"]
    ensures exists t :: Contributes(g, m, keys, t, x)
                        && ParseTimestamp(h) == ParseTimestamp(m[t]) && "price" in m[t] && h["price"] == m[t]["price"]
  {
    hide Target, NormalizeKey, ParseTimestamp, Merged;
    var k := keys[0];
    ContributionsComeFrom(g, m, keys, s, x);
    StepEffect(g, m, k, x);
    if s != x {
      assert Contributes(g, m, keys, s, x);
    } else if Moves(g, k) && k in m && x == Target(g, k).value.dest {
      assert Contributes(g, m, keys, k, x) && (x in m ==> Contributes(g, m, keys, x, x));
      MergedIsNewest(m[k], Get(m, x), Target(g, k).value);
    } else {
      assert Contributes(g, m, keys, x, x);
    }
  }

  /** Scanning any list of keys, in any order and with repeats, leaves every settled key that is contributed to
      with the newest of its contributions, whatever else the store holds. */
  lemma {:induction false} ScanKeepsNewest(g: Group, m: Store, keys: seq<string>, x: string)
    requires NoEmptyHash(m) && !Moves(g, x) && SourcesQuoted(g, m, keys, x)
    requires exists s :: Contributes(g, m, keys, s, x)
    ensures x in NormalizeKeys(g, m, keys)
    ensures HoldsNewest(g, m, keys, x, NormalizeKeys(g, m, keys)[x])
    decreases |keys|
  {
    hide Target, NormalizeKey, ParseTimestamp, Merged;
    var s :| Contributes(g, m, keys, s, x);
    if keys != [] {
      ContributionsSurvive(g, m, keys, s, x);
      StepKeepsNoEmpty(g, m, keys[0]);
      SourcesStayQuoted(g, m, keys, x);
      ScanKeepsNewest(g, NormalizeKey(g, m, keys[0]), keys[1..], x);
      NewestStep(g, m, keys, x, NormalizeKeys(g, m, keys)[x]);
    }
  }

  // ---------------------------------------------------------------- a complete scan, and both groups

  /** The keys SCAN returns for a group have its prefix, and none that has to move is missed. */
  ghost predicate Scans(g: Group, m: Store, keys: seq<string>) {
    && (forall k :: k in keys ==> InGroup(g, k))
    && forall k :: k in m && InGroup(g, k) && Moves(g, k) ==> k in keys
  }

  /** Nothing of the group is left to be moved. */
  ghost predicate Settled(g: Group, m: Store) {
    forall k :: k in m && InGroup(g, k) ==> !Moves(g, k)
  }

  lemma ScanSettles(g: Group, m: Store, keys: seq<string>)
    requires Scans(g, m, keys)
    ensures Settled(g, NormalizeKeys(g, m, keys))
  {
    hide Target, NormalizeKey, InGroup;
    forall k | k in NormalizeKeys(g, m, keys) && InGroup(g, k) ensures !Moves(g, k) {
      if Moves(g, k) {
        ScanRemovesSources(g, m, keys, k);
      }
    }
  }

  /** After a scan that saw every key of the group to be moved, another scan of it changes nothing. */
  lemma SecondScanIsIdle(g: Group, m: Store, keys: seq<string>, keys': seq<string>)
    requires Scans(g, m, keys) && forall k :: k in keys' ==> InGroup(g, k)
    ensures NormalizeKeys(g, NormalizeKeys(g, m, keys), keys') == NormalizeKeys(g, m, keys)
  {
    hide NormalizeKeys, Target, InGroup;
    ScanSettles(g, m, keys);
    IdleScan(g, NormalizeKeys(g, m, keys), keys');
  }

  lemma {:induction false} IdleScan(g: Group, m: Store, keys: seq<string>)
    requires Settled(g, m) && forall k :: k in keys ==> InGroup(g, k)
    ensures NormalizeKeys(g, m, keys) == m
    decreases |keys|
  {
    hide Target, NormalizeKey, InGroup;
    if keys != [] {
      IdleStep(g, m, keys[0]);
      IdleScan(g, m, keys[1..]);
    }
  }

  lemma {:induction false} NormalizeOneMore(g: Group, m: Store, keys: seq<string>, k: string)
    ensures NormalizeKeys(g, m, keys + [k]) == NormalizeKey(g, NormalizeKeys(g, m, keys), k)
    decreases |keys|
  {
    hide NormalizeKey;
    if keys == [] {
      assert keys + [k] == [k];
    } else {
      assert (keys + [k])[1..] == keys[1..] + [k];
      NormalizeOneMore(g, NormalizeKey(g, m, keys[0]), keys[1..], k);
    }
  }

  // ---------------------------------------------------------------- both groups, one after the other

  function NormalizeExchangeKeys(m: Store, prices: seq<string>, canons: seq<string>): Store {
    NormalizeKeys(PriceCanon, NormalizeKeys(Price, m, prices), canons)
  }

  /** A scan of one group leaves the other alone. */
  lemma OtherGroupStays(g: Group, m: Store, keys: seq<string>, x: string)
    requires NoEmptyHash(m) && (forall k :: k in keys ==> InGroup(g, k)) && !InGroup(g, x)
    ensures Get(NormalizeKeys(g, m, keys), x) == Get(m, x) && (x in NormalizeKeys(g, m, keys) <==> x in m)
  {
    hide Target, NormalizeKeys, InGroup;
    forall s | s in m ensures !FeedsInto(g, keys, s, x) {
      if FeedsInto(g, keys, s, x) {
        DestinationsInGroup(g, s);
      }
    }
    ScanTouchesOnly(g, m, keys, x);
  }

  lemma {:induction false} ScanKeepsNoEmpty(g: Group, m: Store, keys: seq<string>)
    requires NoEmptyHash(m)
    ensures NoEmptyHash(NormalizeKeys(g, m, keys))
    decreases |keys|
  {
    hide NormalizeKey;
    if keys != [] {
      StepKeepsNoEmpty(g, m, keys[0]);
      ScanKeepsNoEmpty(g, NormalizeKey(g, m, keys[0]), keys[1..]);
    }
  }

  /** After complete scans of both groups nothing is left to be moved, and any further run changes nothing. */
  lemma SecondRunIsIdle(m: Store, prices: seq<string>, canons: seq<string>, prices': seq<string>, canons': seq<string>)
    requires NoEmptyHash(m) && Scans(Price, m, prices) && Scans(PriceCanon, m, canons)
    requires forall k :: k in prices' ==> InGroup(Price, k)
    requires forall k :: k in canons' ==> InGroup(PriceCanon, k)
    ensures
      var once := NormalizeExchangeKeys(m, prices, canons);
      Settled(Price, once) && Settled(PriceCanon, once) && NormalizeExchangeKeys(once, prices', canons') == once
  {
    hide Target, NormalizeKeys, InGroup;
    var m1 := NormalizeKeys(Price, m, prices);
    var m2 := NormalizeKeys(PriceCanon, m1, canons);
    ScanKeepsNoEmpty(Price, m, prices);
    ScanSettles(Price, m, prices);
    forall k | k in m1 && InGroup(PriceCanon, k) ensures k in m {
      OtherGroup(PriceCanon, Price, k);
      OtherGroupStays(Price, m, prices, k);
    }
    ScanSettles(PriceCanon, m1, canons);
    forall k | k in m2 && InGroup(Price, k) ensures k in m1 {
      OtherGroup(Price, PriceCanon, k);
      OtherGroupStays(PriceCanon, m1, canons, k);
    }
    IdleScan(Price, m2, prices');
    IdleScan(PriceCanon, m2, canons');
  }

  lemma OtherGroup(g: Group, g': Group, key: string)
    requires InGroup(g, key) && g != g'
    ensures !InGroup(g', key)
  {
    if InGroup(g', key) {
      GroupsAreDisjoint(g, g', key);
    }
  }

  /** Normalizing both groups leaves a settled key of either with the newest of what that group's scan brings to it. */
  lemma RunKeepsNewest(m: Store, prices: seq<string>, canons: seq<string>, g: Group, x: string)
    requires NoEmptyHash(m) && InGroup(g, x) && !Moves(g, x)
    requires (forall k :: k in prices ==> InGroup(Price, k)) && forall k :: k in canons ==> InGroup(PriceCanon, k)
    requires
      var keys := if g.Price? then prices else canons;
      SourcesQuoted(g, m, keys, x) && exists s :: Contributes(g, m, keys, s, x)
    ensures
      var keys, after := if g.Price? then prices else canons, NormalizeExchangeKeys(m, prices, canons);
      x in after && HoldsNewest(g, m, keys, x, after[x])
  {
    hide Target, NormalizeKeys, InGroup, HoldsNewest, SourcesQuoted;
    var m1 := NormalizeKeys(Price, m, prices);
    ScanKeepsNoEmpty(Price, m, prices);
    if g.Price? {
      ScanKeepsNewest(Price, m, prices, x);
      OtherGroup(Price, PriceCanon, x);
      OtherGroupStays(PriceCanon, m1, canons, x);
    } else {
      forall k | InGroup(PriceCanon, k) ensures Get(m1, k) == Get(m, k) && (k in m1 <==> k in m) {
        OtherGroup(PriceCanon, Price, k);
        OtherGroupStays(Price, m, prices, k);
      }
      SameContributions(m, m1, canons, x);
      ScanKeepsNewest(PriceCanon, m1, canons, x);
      NewestOfSame(m, m1, canons, x, NormalizeKeys(PriceCanon, m1, canons)[x]);
    }
  }

  lemma SameContributions(m: Store, m': Store, keys: seq<string>, x: string)
    requires InGroup(PriceCanon, x) && forall k :: k in keys ==> InGroup(PriceCanon, k)
    requires forall k :: InGroup(PriceCanon, k) ==> Get(m', k) == Get(m, k) && (k in m' <==> k in m)
    ensures forall s :: Contributes(PriceCanon, m, keys, s, x) <==> Contributes(PriceCanon, m', keys, s, x)
    ensures SourcesQuoted(PriceCanon, m, keys, x) ==> SourcesQuoted(PriceCanon, m', keys, x)
  {
    hide Target, InGroup, Quoted;
    forall s | Contributes(PriceCanon, m, keys, s, x) ensures Contributes(PriceCanon, m', keys, s, x) && m'[s] == m[s] {
      assert InGroup(PriceCanon, s);
    }
  }

  lemma NewestOfSame(m: Store, m': Store, keys: seq<string>, x: string, h: Hash)
    requires InGroup(PriceCanon, x) && forall k :: k in keys ==> InGroup(PriceCanon, k)
    requires forall k :: InGroup(PriceCanon, k) ==> Get(m', k) == Get(m, k) && (k in m' <==> k in m)
    requires HoldsNewest(PriceCanon, m', keys, x, h)
    ensures HoldsNewest(PriceCanon, m, keys, x, h)
  {
    hide Target, InGroup, Quoted, ParseTimestamp;
    SameContributions(m, m', keys, x);
    forall s | Contributes(PriceCanon, m, keys, s, x) ensures m'[s] == m[s] && Contributes(PriceCanon, m', keys, s, x) {
      assert InGroup(PriceCanon, s);
    }
  }
}
