/** The Redis client that migrates legacy price keys. */
module RedisClient {
  import opened Options
  import opened Sequences
  import opened ExchangeKeys
  import opened KeyMigration

  /** HSET with a list of fields: later values of a field win. */
  function Assign(h: Hash, fields: seq<(string, string)>): (r: Hash)
    ensures |fields| == 1 ==> r == h[fields[0].0 := fields[0].1]
  {
    if fields == [] then h
    else Assign(h, fields[..|fields| - 1])[fields[|fields| - 1].0 := fields[|fields| - 1].1]
  }

  ghost function Only(h: Hash, keys: set<string>): Hash {
    map k | k in h && k in keys :: h[k]
  }

  lemma AssignOne(h: Hash, fields: seq<(string, string)>, k: string, v: string)
    ensures Assign(h, fields + [(k, v)]) == Assign(h, fields)[k := v]
  {
  }

  /** `out` lists the fields `done` of a hash, each once. */
  ghost predicate Lists(out: seq<(string, string)>, fields: Hash, done: set<string>) {
    && done <= fields.Keys && |out| == |done|
    && forall h :: Assign(h, out) == h + Only(fields, done)
  }

  lemma ListOneMore(out: seq<(string, string)>, fields: Hash, done: set<string>, key: string)
    requires Lists(out, fields, done) && key in fields && key !in done
    ensures Lists(out + [(key, fields[key])], fields, done + {key})
  {
    forall h ensures Assign(h, out + [(key, fields[key])]) == h + Only(fields, done + {key}) {
      AssignOne(h, out, key, fields[key]);
      assert Assign(h, out) == h + Only(fields, done);
    }
  }

  lemma ListedAll(out: seq<(string, string)>, fields: Hash)
    requires Lists(out, fields, fields.Keys)
    ensures |out| == |fields| && forall h :: Assign(h, out) == h + fields
  {
  }

  /** The fields of a hash as HSET arguments, the usual four first, the rest in any order. */
  method FlattenFields(fields: Hash) returns (out: seq<(string, string)>)
    ensures |out| == |fields| && forall h :: Assign(h, out) == h + fields
  {
    var order := ["price", "timestamp", "exchange", "symbol"];
    out := [];
    var seen: set<string> := {};
    assert Lists(out, fields, seen);
    hide Lists;
    for i := 0 to |order|
      invariant Lists(out, fields, seen)
      invariant seen <= set j | 0 <= j < i :: order[j]
    {
      var key := order[i];
      if key in fields {
        ListOneMore(out, fields, seen, key);
        out := out + [(key, fields[key])];
        seen := seen + {key};
      }
    }
    ghost var done := seen;
    var rest := fields.Keys;
    while rest != {}
      invariant Lists(out, fields, done) && rest <= fields.Keys && seen <= done
      invariant forall k :: k in fields ==> (k in done <==> k !in rest || k in seen)
    {
      var key :| key in rest;
      rest := rest - {key};
      if key in seen {
        continue;
      }
      ListOneMore(out, fields, done, key);
      out := out + [(key, fields[key])];
      done := done + {key};
    }
    assert done == fields.Keys by { ListedKeys(out, fields, done); }
    ListedAll(out, fields);
  }

  lemma ListedKeys(out: seq<(string, string)>, fields: Hash, done: set<string>)
    requires Lists(out, fields, done)
    ensures done <= fields.Keys
  {
  }

  class RedisClient {
    var store: Store

    method HSet(key: string, fields: seq<(string, string)>)
      requires fields != []
      modifies this
      ensures store == old(store)[key := Assign(Get(old(store), key), fields)]
    {
      store := store[key := Assign(Get(store, key), fields)];
    }

    method Del(key: string)
      modifies this
      ensures store == old(store) - {key}
    {
      store := store - {key};
    }

    method MergeAndDelete(srcKey: string, destKey: string, exchangeLower: string, newSymbol: string) returns (n: nat)
      modifies this
      ensures store == KeyMigration.MergeAndDelete(old(store), srcKey, Rewrite(destKey, exchangeLower, newSymbol))
      ensures n == if srcKey == destKey then 0 else 1
    {
      hide ParseTimestamp, Assign;
      if srcKey == destKey {
        return 0;
      }
      ghost var r, before := Rewrite(destKey, exchangeLower, newSymbol), store;
      var srcFields := Get(store, srcKey);
      if |srcFields| == 0 {
        Del(srcKey);
        return 1;
      }
      srcFields := srcFields["exchange" := exchangeLower];
      if newSymbol != "" {
        srcFields := srcFields["symbol" := newSymbol];
      }
      var destFields := Get(store, destKey);
      var srcTs, destTs := ParseTimestamp(srcFields), ParseTimestamp(destFields);
      if |destFields| == 0 || srcTs >= destTs {
        var fields := FlattenFields(srcFields);
        HSet(destKey, fields);
        assert Assign(destFields, fields) == Merged(before[srcKey], destFields, r);
      } else if !("exchange" in destFields && destFields["exchange"] == exchangeLower) {
        HSet(destKey, [("exchange", exchangeLower)]);
        if newSymbol != "" {
          HSet(destKey, [("symbol", newSymbol)]);
        }
        assert store[destKey] == Relabelled(destFields, r);
      }
      assert store == before[destKey := Merged(before[srcKey], destFields, r)];
      Del(srcKey);
      return 1;
    }

    method NormalizeKey(g: Group, key: string) returns (n: nat)
      modifies this
      ensures store == KeyMigration.NormalizeKey(g, old(store), key)
    {
      match Target(g, key)
      case None => n := 0;
      case Some(r) => n := MergeAndDelete(key, r.dest, r.exchange, r.symbol);
    }

    /** The scan comes in pages of keys, until the cursor is back at zero. */
    method NormalizeKeyGroup(g: Group, pages: seq<seq<string>>) returns (normalized: nat)
      modifies this
      ensures store == NormalizeKeys(g, old(store), Concat(pages))
    {
      hide KeyMigration.NormalizeKey;
      normalized := 0;
      for p := 0 to |pages|
        invariant store == NormalizeKeys(g, old(store), Concat(pages[..p]))
      {
        var keys := pages[p];
        assert Concat(pages[..p]) + keys[..0] == Concat(pages[..p]);
        for i := 0 to |keys|
          invariant store == NormalizeKeys(g, old(store), Concat(pages[..p]) + keys[..i])
        {
          var count := NormalizeKey(g, keys[i]);
          normalized := normalized + count;
          NormalizeOneMore(g, old(store), Concat(pages[..p]) + keys[..i], keys[i]);
          assert Concat(pages[..p]) + keys[..i] + [keys[i]] == Concat(pages[..p]) + keys[..i + 1];
        }
        assert keys[..|keys|] == keys && pages[..p + 1][..p] == pages[..p];
      }
      assert pages[..|pages|] == pages;
    }

    /** Both groups, the raw prices first. */
    method NormalizeExchangeKeys(prices: seq<seq<string>>, canons: seq<seq<string>>)
      returns (priceCount: nat, canonCount: nat)
      modifies this
      ensures store == KeyMigration.NormalizeExchangeKeys(old(store), Concat(prices), Concat(canons))
    {
      priceCount := NormalizeKeyGroup(Price, prices);
      canonCount := NormalizeKeyGroup(PriceCanon, canons);
    }
  }
}
