/** The deduplicate-and-merge reducer of the gallery feed (`deduplicateAndMergeOwnership`):
    rows with the same `name::image_url` key collapse to one record that keeps the
    first row's fields, ORs `owned` and lists every row's `asset_id`.

    `Merged` states that result declaratively; `Deduplicate` is the source's loop over
    a `Map` and is proved to compute it. The lemmas below give the properties of the
    result and what happens when merged rows are fed back in, as the feed does. */
module Dedup {
  import opened JsText
  import opened Wrappers
  import opened Items

  /** The distinct keys of `items` in order of first occurrence. */
  function DistinctKeys(items: seq<Item>): (r: seq<string>)
    ensures forall j :: 0 <= j < |r| ==> r[j] in KeySet(items)
    decreases |items|
  {
    if |items| == 0 then
      []
    else
      var s, x := items[..|items| - 1], items[|items| - 1];
      assert items == s + [x];
      KeySetSnoc(s, x);
      DistinctKeys(s) + (if Key(x) in KeySet(s) then [] else [Key(x)])
  }

  lemma DistinctKeysSnoc(s: seq<Item>, x: Item)
    ensures DistinctKeys(s + [x]) == DistinctKeys(s) + (if Key(x) in KeySet(s) then [] else [Key(x)])
  {
    assert (s + [x])[..|s|] == s;
  }

  /** The distinct keys are exactly the keys of the input, each listed once. */
  lemma DistinctKeysFacts(items: seq<Item>)
    ensures forall k :: k in KeySet(items) ==> k in DistinctKeys(items)
    ensures forall i, j :: 0 <= i < j < |DistinctKeys(items)| ==> DistinctKeys(items)[i] != DistinctKeys(items)[j]
    ensures |DistinctKeys(items)| == |KeySet(items)| <= |items|
  {
    DistinctKeysCover(items);
    DistinctKeysUnique(items);
    DistinctKeysCount(items);
  }

  lemma {:induction false} DistinctKeysCover(items: seq<Item>)
    ensures forall k :: k in KeySet(items) ==> k in DistinctKeys(items)
    decreases |items|
  {
    if |items| > 0 {
      var s, x := items[..|items| - 1], items[|items| - 1];
      assert items == s + [x];
      KeySetSnoc(s, x);
      DistinctKeysSnoc(s, x);
      DistinctKeysCover(s);
    }
  }

  lemma {:induction false} DistinctKeysUnique(items: seq<Item>)
    ensures forall i, j :: 0 <= i < j < |DistinctKeys(items)| ==> DistinctKeys(items)[i] != DistinctKeys(items)[j]
    decreases |items|
  {
    if |items| > 0 {
      var s, x := items[..|items| - 1], items[|items| - 1];
      assert items == s + [x];
      DistinctKeysSnoc(s, x);
      DistinctKeysUnique(s);
    }
  }

  lemma {:induction false} DistinctKeysCount(items: seq<Item>)
    ensures |DistinctKeys(items)| == |KeySet(items)| <= |items|
    decreases |items|
  {
    if |items| > 0 {
      var s, x := items[..|items| - 1], items[|items| - 1];
      assert items == s + [x];
      KeySetSnoc(s, x);
      DistinctKeysSnoc(s, x);
      DistinctKeysCount(s);
      if Key(x) in KeySet(s) {
        assert KeySet(s) + {Key(x)} == KeySet(s);
      } else {
        assert |KeySet(s) + {Key(x)}| == |KeySet(s)| + 1;
      }
    }
  }

  /** The offset of the first row with key `k`. */
  function FirstIndex(items: seq<Item>, k: string): (i: nat)
    requires k in KeySet(items)
    ensures i < |items| && Key(items[i]) == k
    ensures forall j :: 0 <= j < i ==> Key(items[j]) != k
    decreases |items|
  {
    var s, x := items[..|items| - 1], items[|items| - 1];
    assert items == s + [x];
    KeySetSnoc(s, x);
    if k in KeySet(s) then
      FirstIndex(s, k)
    else
      NotInKeySet(s, k);
      |items| - 1
  }

  /** A row that satisfies the first-occurrence property is the one `FirstIndex` finds. */
  lemma FirstIndexUnique(items: seq<Item>, k: string, i: nat)
    requires i < |items| && Key(items[i]) == k
    requires forall j :: 0 <= j < i ==> Key(items[j]) != k
    ensures k in KeySet(items) && FirstIndex(items, k) == i
  {
    KeyInKeySet(items, i);
  }

  /** Some row with key `k` is owned. */
  predicate AnyOwned(items: seq<Item>, k: string) {
    exists i :: 0 <= i < |items| && Key(items[i]) == k && items[i].owned
  }

  /** The asset ids of the rows with key `k`, in input order, repeats kept. */
  function IdsWithKey(items: seq<Item>, k: string): seq<string>
    decreases |items|
  {
    if |items| == 0 then []
    else
      var x := items[|items| - 1];
      IdsWithKey(items[..|items| - 1], k) + (if Key(x) == k then [x.assetId] else [])
  }

  /** The one record kept for key `k`: the first row with that key, with `owned`
      the OR over all rows with that key and `assetIds` all their asset ids. */
  function MergedFor(items: seq<Item>, k: string): Item
    requires k in KeySet(items)
  {
    items[FirstIndex(items, k)].(owned := AnyOwned(items, k), assetIds := Some(IdsWithKey(items, k)))
  }

  /** The reducer's result: one record per distinct key, in first-occurrence order. */
  function Merged(items: seq<Item>): seq<Item> {
    var ks := DistinctKeys(items);
    seq(|ks|, j requires 0 <= j < |ks| => MergedFor(items, ks[j]))
  }

  /** The map the reducer keeps after folding in the rows `s`: each key of `s`
      bound to its merged record. */
  predicate TableFor(s: seq<Item>, table: map<string, Item>) {
    table.Keys == KeySet(s) && forall k :: k in table ==> table[k] == MergedFor(s, k)
  }

  /** A key hit: `owned` is ORed and the row's `asset_id` appended to the existing
      list, with no check whether it is already there. */
  function Absorb(existing: Item, item: Item): (r: Item)
    ensures r.owned <==> existing.owned || item.owned
    ensures r.assetIds.Some? && |r.assetIds.value| >= 1
    ensures r.assetIds.value[|r.assetIds.value| - 1] == item.assetId
    ensures r.assetIds.value[..|r.assetIds.value| - 1] ==
      if existing.assetIds.Some? then existing.assetIds.value else [existing.assetId]
    ensures r.(owned := existing.owned, assetIds := existing.assetIds) == existing
  {
    var ids := if existing.assetIds.Some? then existing.assetIds.value else [existing.assetId];
    existing.(owned := existing.owned || item.owned, assetIds := Some(ids + [item.assetId]))
  }

  /** A key miss: a copy of the row whose `asset_ids` is its own id alone. */
  function Fresh(item: Item): (r: Item)
    ensures r.assetIds == Some([item.assetId])
    ensures r.(assetIds := item.assetIds) == item
  {
    item.(assetIds := Some([item.assetId]))
  }

  /** `deduplicateAndMergeOwnership`: a fold into a `Map` kept in insertion order.
      On a key hit the stored record absorbs the row; on a miss a fresh copy is
      stored and the key appended to the order. */
  method Deduplicate(items: seq<Item>) returns (result: seq<Item>)
    ensures result == Merged(items)
  {
    var unique: map<string, Item> := map[];
    var order: seq<string> := [];
    for i := 0 to |items|
      invariant order == DistinctKeys(items[..i])
      invariant TableFor(items[..i], unique)
    {
      var item := items[i];
      var key := Key(item);
      TakeSnoc(items, i);
      TableStep(items[..i], item, unique);
      DistinctKeysSnoc(items[..i], item);
      if key in unique {
        unique := unique[key := Absorb(unique[key], item)];
      } else {
        unique := unique[key := Fresh(item)];
        order := order + [key];
      }
    }
    assert items[..|items|] == items;
    TableResult(items, unique, order);
    result := Values(unique, order);
  }

  /** One step of the fold keeps the map in step with the rows seen so far. */
  lemma TableStep(s: seq<Item>, item: Item, table: map<string, Item>)
    requires TableFor(s, table)
    ensures Key(item) in table <==> Key(item) in KeySet(s)
    ensures Key(item) in table ==> TableFor(s + [item], table[Key(item) := Absorb(table[Key(item)], item)])
    ensures Key(item) !in table ==> TableFor(s + [item], table[Key(item) := Fresh(item)])
  {
    if Key(item) in table {
      TableHit(s, item, table);
    } else {
      TableMiss(s, item, table);
    }
  }

  lemma TableHit(s: seq<Item>, item: Item, table: map<string, Item>)
    requires TableFor(s, table) && Key(item) in table
    ensures TableFor(s + [item], table[Key(item) := Absorb(table[Key(item)], item)])
  {
    var key := Key(item);
    var next := table[key := Absorb(table[key], item)];
    KeySetSnoc(s, item);
    assert next.Keys == KeySet(s + [item]);
    forall k | k in next
      ensures next[k] == MergedFor(s + [item], k)
    {
      if k == key {
        AbsorbMatches(s, item, table[k]);
      } else {
        KeptUnchanged(s, item, k, table[k]);
      }
    }
  }

  /** A record whose key the row does not carry is left as it was. */
  lemma KeptUnchanged(s: seq<Item>, item: Item, k: string, m: Item)
    requires k in KeySet(s) && Key(item) != k && m == MergedFor(s, k)
    ensures k in KeySet(s + [item])
    ensures m == MergedFor(s + [item], k)
  {
    KeySetSnoc(s, item);
    MergedForSnoc(s, item, k);
  }

  /** Absorbing a row into the record merged so far gives the record merged with it. */
  lemma AbsorbMatches(s: seq<Item>, item: Item, m: Item)
    requires Key(item) in KeySet(s) && m == MergedFor(s, Key(item))
    ensures Key(item) in KeySet(s + [item])
    ensures Absorb(m, item) == MergedFor(s + [item], Key(item))
  {
    KeySetSnoc(s, item);
    MergedForSnoc(s, item, Key(item));
    assert m.assetIds == Some(IdsWithKey(s, Key(item)));
  }

  lemma TableMiss(s: seq<Item>, item: Item, table: map<string, Item>)
    requires TableFor(s, table) && Key(item) !in table
    ensures TableFor(s + [item], table[Key(item) := Fresh(item)])
  {
    var key := Key(item);
    var next := table[key := Fresh(item)];
    KeySetSnoc(s, item);
    assert next.Keys == KeySet(s + [item]);
    forall k | k in next
      ensures next[k] == MergedFor(s + [item], k)
    {
      MergedForSnoc(s, item, k);
    }
  }

  /** Reading the map in key order gives the merged records. */
  lemma TableResult(items: seq<Item>, table: map<string, Item>, order: seq<string>)
    requires TableFor(items, table) && order == DistinctKeys(items)
    ensures forall j :: 0 <= j < |order| ==> order[j] in table
    ensures Values(table, order) == Merged(items)
  {
    var r := Values(table, order);
    assert |r| == |Merged(items)|;
    forall j | 0 <= j < |r|
      ensures r[j] == Merged(items)[j]
    {
    }
  }

  /** `Array.from(map.values())`: the stored records in key insertion order. */
  function Values(table: map<string, Item>, order: seq<string>): (r: seq<Item>)
    requires forall j :: 0 <= j < |order| ==> order[j] in table
    ensures |r| == |order|
    ensures forall j :: 0 <= j < |order| ==> r[j] == table[order[j]]
  {
    seq(|order|, j requires 0 <= j < |order| => table[order[j]])
  }

  lemma TakeSnoc(xs: seq<Item>, i: nat)
    requires i < |xs|
    ensures xs[..i + 1] == xs[..i] + [xs[i]]
  {
  }

  /** How the record for key `k` changes when one more row is folded in. */
  lemma MergedForSnoc(s: seq<Item>, x: Item, k: string)
    requires k in KeySet(s + [x])
    ensures Key(x) != k ==> k in KeySet(s) && MergedFor(s + [x], k) == MergedFor(s, k)
    ensures Key(x) == k && k in KeySet(s) ==>
      MergedFor(s + [x], k) ==
        MergedFor(s, k).(owned := MergedFor(s, k).owned || x.owned,
                         assetIds := Some(IdsWithKey(s, k) + [x.assetId]))
    ensures Key(x) == k && k !in KeySet(s) ==> MergedFor(s + [x], k) == x.(assetIds := Some([x.assetId]))
  {
    KeySetSnoc(s, x);
    if k in KeySet(s) {
      KeptAfterSnoc(s, x, k);
      var m := MergedFor(s, k);
      if Key(x) != k {
        assert IdsWithKey(s, k) + [] == IdsWithKey(s, k);
        assert m.(owned := m.owned || false, assetIds := Some(IdsWithKey(s, k))) == m;
      }
    } else {
      NewAfterSnoc(s, x, k);
    }
  }

  lemma KeptAfterSnoc(s: seq<Item>, x: Item, k: string)
    requires k in KeySet(s)
    ensures k in KeySet(s + [x])
    ensures MergedFor(s + [x], k) ==
      MergedFor(s, k).(owned := MergedFor(s, k).owned || (Key(x) == k && x.owned),
                       assetIds := Some(IdsWithKey(s, k) + (if Key(x) == k then [x.assetId] else [])))
  {
    var t := s + [x];
    assert t[..|t| - 1] == s;
    KeySetSnoc(s, x);
    AnyOwnedSnoc(s, x, k);
    var f := FirstIndex(s, k);
    assert t[f] == s[f];
    FirstIndexUnique(t, k, f);
    assert IdsWithKey(t, k) == IdsWithKey(s, k) + (if Key(x) == k then [x.assetId] else []);
  }

  lemma NewAfterSnoc(s: seq<Item>, x: Item, k: string)
    requires k !in KeySet(s) && Key(x) == k
    ensures k in KeySet(s + [x])
    ensures MergedFor(s + [x], k) == x.(assetIds := Some([x.assetId]))
  {
    var t := s + [x];
    assert t[..|t| - 1] == s;
    KeySetSnoc(s, x);
    AnyOwnedSnoc(s, x, k);
    AbsentKey(s, k);
    assert t[|s|] == x;
    FirstIndexUnique(t, k, |s|);
    assert IdsWithKey(t, k) == [x.assetId];
  }

  /** A key absent from the rows has no owned row and no ids. */
  lemma AbsentKey(s: seq<Item>, k: string)
    requires k !in KeySet(s)
    ensures forall i :: 0 <= i < |s| ==> Key(s[i]) != k
    ensures !AnyOwned(s, k)
    ensures IdsWithKey(s, k) == []
  {
    NotInKeySet(s, k);
    IdsAbsent(s, k);
  }

  lemma {:induction false} IdsAbsent(s: seq<Item>, k: string)
    requires forall i :: 0 <= i < |s| ==> Key(s[i]) != k
    ensures IdsWithKey(s, k) == []
    decreases |s|
  {
    if |s| > 0 {
      var p := s[..|s| - 1];
      assert forall i :: 0 <= i < |p| ==> p[i] == s[i];
      IdsAbsent(p, k);
    }
  }

  lemma AnyOwnedSnoc(s: seq<Item>, x: Item, k: string)
    ensures AnyOwned(s + [x], k) == (AnyOwned(s, k) || (Key(x) == k && x.owned))
  {
    AnyOwnedConcat(s, [x], k);
    if Key(x) == k && x.owned {
      assert [x][0] == x;
    }
  }

  lemma AnyOwnedConcat(s: seq<Item>, t: seq<Item>, k: string)
    ensures AnyOwned(s + t, k) == (AnyOwned(s, k) || AnyOwned(t, k))
  {
    var u := s + t;
    if AnyOwned(u, k) {
      var i :| 0 <= i < |u| && Key(u[i]) == k && u[i].owned;
      if i < |s| {
        assert u[i] == s[i];
      } else {
        assert u[i] == t[i - |s|];
      }
    }
    if AnyOwned(s, k) {
      var i :| 0 <= i < |s| && Key(s[i]) == k && s[i].owned;
      assert u[i] == s[i];
    }
    if AnyOwned(t, k) {
      var i :| 0 <= i < |t| && Key(t[i]) == k && t[i].owned;
      assert u[|s| + i] == t[i];
    }
  }

  lemma {:induction false} IdsWithKeyConcat(s: seq<Item>, t: seq<Item>, k: string)
    ensures IdsWithKey(s + t, k) == IdsWithKey(s, k) + IdsWithKey(t, k)
    decreases |t|
  {
    if |t| == 0 {
      assert s + t == s;
      assert IdsWithKey(s, k) + [] == IdsWithKey(s, k);
    } else {
      var u := s + t;
      var tp, x := t[..|t| - 1], t[|t| - 1];
      assert u[..|u| - 1] == s + tp;
      assert u[|u| - 1] == x;
      IdsWithKeyConcat(s, tp, k);
      var e := if Key(x) == k then [x.assetId] else [];
      assert IdsWithKey(u, k) == IdsWithKey(s + tp, k) + e;
      assert IdsWithKey(t, k) == IdsWithKey(tp, k) + e;
      assert (IdsWithKey(s, k) + IdsWithKey(tp, k)) + e == IdsWithKey(s, k) + (IdsWithKey(tp, k) + e);
    }
  }

  /** When exactly one row has key `k`, the ids for `k` are that row's id and
      `owned` for `k` is that row's flag. */
  lemma {:induction false} OnlyRowWithKey(items: seq<Item>, j: nat, k: string)
    requires j < |items| && Key(items[j]) == k
    requires forall i :: 0 <= i < |items| && i != j ==> Key(items[i]) != k
    ensures IdsWithKey(items, k) == [items[j].assetId]
    ensures AnyOwned(items, k) == items[j].owned
    decreases |items|
  {
    var p := items[..|items| - 1];
    assert forall i :: 0 <= i < |p| ==> p[i] == items[i];
    if j == |items| - 1 {
      IdsAbsent(p, k);
    } else {
      OnlyRowWithKey(p, j, k);
    }
    if items[j].owned {
      assert Key(items[j]) == k;
    }
  }

  /** A key-distinct sequence lists its own keys as its distinct keys. */
  lemma {:induction false} DistinctKeysOfDistinct(items: seq<Item>)
    requires DistinctKeyed(items)
    ensures |DistinctKeys(items)| == |items|
    ensures forall j :: 0 <= j < |items| ==> DistinctKeys(items)[j] == Key(items[j])
    decreases |items|
  {
    if |items| > 0 {
      var s, x := items[..|items| - 1], items[|items| - 1];
      assert items == s + [x];
      assert forall i :: 0 <= i < |s| ==> s[i] == items[i];
      DistinctKeysOfDistinct(s);
      DistinctKeysSnoc(s, x);
      forall i | 0 <= i < |s|
        ensures Key(s[i]) != Key(x)
      {
        assert Key(items[i]) != Key(items[|items| - 1]);
      }
      AbsentFromKeySet(s, Key(x));
    }
  }

  /** Adding rows never reorders or drops the keys seen so far. */
  lemma {:induction false} DistinctKeysPrefix(s: seq<Item>, t: seq<Item>)
    ensures DistinctKeys(s) <= DistinctKeys(s + t)
    decreases |t|
  {
    if |t| == 0 {
      assert s + t == s;
    } else {
      var tp := t[..|t| - 1];
      assert s + t == (s + tp) + [t[|t| - 1]];
      DistinctKeysSnoc(s + tp, t[|t| - 1]);
      DistinctKeysPrefix(s, tp);
    }
  }

  /** The merge result has one record per key, in the order of the keys' first
      occurrence in the input, and is no longer than the input. */
  lemma MergedKeys(items: seq<Item>)
    ensures |Merged(items)| == |KeySet(items)| <= |items|
    ensures DistinctKeyed(Merged(items))
    ensures forall j :: 0 <= j < |Merged(items)| ==> Key(Merged(items)[j]) == DistinctKeys(items)[j]
    ensures forall k :: k in KeySet(items) ==> exists j :: 0 <= j < |Merged(items)| && Key(Merged(items)[j]) == k
    ensures forall i, j :: 0 <= i < j < |Merged(items)| ==>
      FirstIndex(items, Key(Merged(items)[i])) < FirstIndex(items, Key(Merged(items)[j]))
  {
    var r, ks := Merged(items), DistinctKeys(items);
    DistinctKeysFacts(items);
    forall j | 0 <= j < |r|
      ensures Key(r[j]) == ks[j]
    {
      assert Key(items[FirstIndex(items, ks[j])]) == ks[j];
    }
    forall k | k in KeySet(items)
      ensures exists j :: 0 <= j < |r| && Key(r[j]) == k
    {
      var j :| 0 <= j < |ks| && ks[j] == k;
      assert Key(r[j]) == k;
    }
    FirstOccurrenceOrder(items);
  }

  /** Distinct keys are listed in increasing order of their first occurrence. */
  lemma {:induction false} FirstOccurrenceOrder(items: seq<Item>)
    ensures forall i, j :: 0 <= i < j < |DistinctKeys(items)| ==>
      FirstIndex(items, DistinctKeys(items)[i]) < FirstIndex(items, DistinctKeys(items)[j])
    decreases |items|
  {
    if |items| > 0 {
      var s, x := items[..|items| - 1], items[|items| - 1];
      assert items == s + [x];
      FirstOccurrenceOrder(s);
      KeySetSnoc(s, x);
      DistinctKeysSnoc(s, x);
      var ks := DistinctKeys(s);
      forall j | 0 <= j < |ks|
        ensures FirstIndex(items, ks[j]) == FirstIndex(s, ks[j])
      {
        assert items[FirstIndex(s, ks[j])] == s[FirstIndex(s, ks[j])];
        FirstIndexUnique(items, ks[j], FirstIndex(s, ks[j]));
      }
    }
  }

  /** Feeding rows into a key-distinct accumulator, as the feed does on every later
      page: each accumulated record stays where it was with its own fields, `owned`
      ORed with the new rows, and `asset_ids` RESET to its own `asset_id` followed by
      the new rows' ids, so earlier merged ids are dropped. Keys new to the
      accumulator follow in first-occurrence order, merged among the new rows. */
  lemma MergeIntoDistinct(acc: seq<Item>, rows: seq<Item>)
    requires DistinctKeyed(acc)
    ensures |Merged(acc + rows)| >= |acc|
    ensures forall j :: 0 <= j < |acc| ==>
      Merged(acc + rows)[j] ==
        acc[j].(owned := acc[j].owned || AnyOwned(rows, Key(acc[j])),
                assetIds := Some([acc[j].assetId] + IdsWithKey(rows, Key(acc[j]))))
    ensures forall j :: |acc| <= j < |Merged(acc + rows)| ==>
      Key(Merged(acc + rows)[j]) !in KeySet(acc) &&
      Key(Merged(acc + rows)[j]) in KeySet(rows) &&
      Merged(acc + rows)[j] == MergedFor(rows, Key(Merged(acc + rows)[j]))
  {
    var u := acc + rows;
    DistinctKeysOfDistinct(acc);
    DistinctKeysPrefix(acc, rows);
    forall j | 0 <= j < |acc|
      ensures Merged(u)[j] ==
        acc[j].(owned := acc[j].owned || AnyOwned(rows, Key(acc[j])),
                assetIds := Some([acc[j].assetId] + IdsWithKey(rows, Key(acc[j]))))
    {
      MergeKeptRecord(acc, rows, j);
    }
    forall j | |acc| <= j < |Merged(u)|
      ensures Key(Merged(u)[j]) !in KeySet(acc) && Key(Merged(u)[j]) in KeySet(rows)
      ensures Merged(u)[j] == MergedFor(rows, Key(Merged(u)[j]))
    {
      MergeNewRecord(acc, rows, j);
    }
  }

  /** One accumulated record after more rows are merged in. */
  lemma MergeKeptRecord(acc: seq<Item>, rows: seq<Item>, j: nat)
    requires DistinctKeyed(acc) && j < |acc|
    ensures j < |Merged(acc + rows)|
    ensures Merged(acc + rows)[j] ==
      acc[j].(owned := acc[j].owned || AnyOwned(rows, Key(acc[j])),
              assetIds := Some([acc[j].assetId] + IdsWithKey(rows, Key(acc[j]))))
  {
    var u := acc + rows;
    var k := Key(acc[j]);
    DistinctKeysOfDistinct(acc);
    DistinctKeysPrefix(acc, rows);
    assert DistinctKeys(u)[j] == k;
    assert u[j] == acc[j];
    forall i | 0 <= i < j
      ensures Key(u[i]) != k
    {
      assert u[i] == acc[i];
    }
    FirstIndexUnique(u, k, j);
    OnlyRowWithKey(acc, j, k);
    IdsWithKeyConcat(acc, rows, k);
    AnyOwnedConcat(acc, rows, k);
    assert Merged(u)[j] == MergedFor(u, k);
  }

  /** A record whose key the accumulator did not have before. */
  lemma MergeNewRecord(acc: seq<Item>, rows: seq<Item>, j: nat)
    requires DistinctKeyed(acc) && |acc| <= j < |Merged(acc + rows)|
    ensures Key(Merged(acc + rows)[j]) !in KeySet(acc)
    ensures Key(Merged(acc + rows)[j]) in KeySet(rows)
    ensures Merged(acc + rows)[j] == MergedFor(rows, Key(Merged(acc + rows)[j]))
  {
    var u := acc + rows;
    var k := DistinctKeys(u)[j];
    assert Merged(u)[j] == MergedFor(u, k);
    assert k in KeySet(u);
    KeySetConcat(acc, rows);
    LaterKeyIsNew(acc, rows, j);
    MergedForPastAbsent(acc, rows, k);
  }

  /** The keys listed after the accumulator's own are new to it. */
  lemma LaterKeyIsNew(acc: seq<Item>, rows: seq<Item>, j: nat)
    requires DistinctKeyed(acc) && |acc| <= j < |DistinctKeys(acc + rows)|
    ensures DistinctKeys(acc + rows)[j] !in KeySet(acc)
  {
    var ks := DistinctKeys(acc + rows);
    DistinctKeysOfDistinct(acc);
    DistinctKeysPrefix(acc, rows);
    DistinctKeysUnique(acc + rows);
    forall i | 0 <= i < |acc|
      ensures Key(acc[i]) != ks[j]
    {
      assert ks[i] == Key(acc[i]);
    }
    AbsentFromKeySet(acc, ks[j]);
  }

  /** Rows that do not carry `k` in front of the others leave its record unchanged. */
  lemma MergedForPastAbsent(acc: seq<Item>, rows: seq<Item>, k: string)
    requires k !in KeySet(acc) && k in KeySet(rows)
    ensures k in KeySet(acc + rows)
    ensures MergedFor(acc + rows, k) == MergedFor(rows, k)
  {
    FirstIndexPastAbsent(acc, rows, k);
    AbsentKey(acc, k);
    AnyOwnedConcat(acc, rows, k);
    IdsPastAbsent(acc, rows, k);
    SameRecord(acc + rows, rows, k);
  }

  lemma IdsPastAbsent(acc: seq<Item>, rows: seq<Item>, k: string)
    requires IdsWithKey(acc, k) == []
    ensures IdsWithKey(acc + rows, k) == IdsWithKey(rows, k)
  {
    IdsWithKeyConcat(acc, rows, k);
    assert [] + IdsWithKey(rows, k) == IdsWithKey(rows, k);
  }

  /** Two row sequences whose first row, ownership and ids for `k` agree give the
      same merged record for `k`. */
  lemma SameRecord(u: seq<Item>, v: seq<Item>, k: string)
    requires k in KeySet(u) && k in KeySet(v)
    requires u[FirstIndex(u, k)] == v[FirstIndex(v, k)]
    requires AnyOwned(u, k) == AnyOwned(v, k) && IdsWithKey(u, k) == IdsWithKey(v, k)
    ensures MergedFor(u, k) == MergedFor(v, k)
  {
  }

  lemma FirstIndexPastAbsent(acc: seq<Item>, rows: seq<Item>, k: string)
    requires k !in KeySet(acc) && k in KeySet(rows)
    ensures k in KeySet(acc + rows)
    ensures FirstIndex(acc + rows, k) == |acc| + FirstIndex(rows, k)
    ensures (acc + rows)[FirstIndex(acc + rows, k)] == rows[FirstIndex(rows, k)]
  {
    var u := acc + rows;
    var f := FirstIndex(rows, k);
    assert u[|acc| + f] == rows[f];
    assert forall i :: 0 <= i < |acc| + f ==> Key(u[i]) != k by {
      NotInKeySet(acc, k);
      forall i | 0 <= i < |acc| + f
        ensures Key(u[i]) != k
      {
        if i < |acc| {
          assert u[i] == acc[i];
        } else {
          assert u[i] == rows[i - |acc|];
        }
      }
    }
    FirstIndexUnique(u, k, |acc| + f);
  }

  /** Re-merging key-distinct rows is not the identity: every `asset_ids` list is
      reset to the row's own `asset_id`. */
  lemma RemergeResetsIds(acc: seq<Item>)
    requires DistinctKeyed(acc)
    ensures |Merged(acc)| == |acc|
    ensures forall j :: 0 <= j < |acc| ==> Merged(acc)[j] == acc[j].(assetIds := Some([acc[j].assetId]))
  {
    assert acc + [] == acc;
    DistinctKeysOfDistinct(acc);
    forall j | 0 <= j < |acc|
      ensures Merged(acc)[j] == acc[j].(assetIds := Some([acc[j].assetId]))
    {
      MergeKeptRecord(acc, [], j);
      assert !AnyOwned([], Key(acc[j]));
      assert IdsWithKey([], Key(acc[j])) == [];
      assert [acc[j].assetId] + [] == [acc[j].assetId];
    }
  }

  /** Two rows with the same key merge into one record: the fields of the first,
      `owned` from either, and both ids in order. */
  lemma PairWithSameKey(acc: seq<Item>, rows: seq<Item>)
    requires |acc| == 1 && |rows| == 1 && Key(acc[0]) == Key(rows[0])
    ensures Merged(acc + rows) ==
      [acc[0].(owned := acc[0].owned || rows[0].owned, assetIds := Some([acc[0].assetId, rows[0].assetId]))]
  {
    var k := Key(acc[0]);
    MergeIntoDistinct(acc, rows);
    MergedKeys(acc + rows);
    KeySetConcat(acc, rows);
    assert KeySet(acc) == {k} by {
      assert acc[..0] == [];
    }
    assert KeySet(rows) == {k} by {
      assert rows[..0] == [];
    }
    assert |Merged(acc + rows)| == 1;
    assert IdsWithKey(rows, k) == [rows[0].assetId] by {
      assert rows[..0] == [];
    }
    assert AnyOwned(rows, k) == rows[0].owned by {
      if rows[0].owned {
        assert Key(rows[0]) == k;
      }
    }
    assert [acc[0].assetId] + [rows[0].assetId] == [acc[0].assetId, rows[0].assetId];
    assert Merged(acc + rows)[0] ==
      acc[0].(owned := acc[0].owned || rows[0].owned, assetIds := Some([acc[0].assetId, rows[0].assetId]));
  }
}
