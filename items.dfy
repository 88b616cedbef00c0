/** An optional value, for JSON fields that may be absent. */
module Wrappers {

  datatype Option<+T> = None | Some(value: T) {

    /** The value, or `default` when absent (a destructuring default). */
    function GetOr(default: T): T {
      match this
      case Some(v) => v
      case None => default
    }
  }
}

/** The gallery's item record and the key by which the front end merges rows
    that show the same artwork. */
module Items {
  import opened JsText
  import opened Wrappers

  /** One row of the `/entries` response. `assetIds` is absent on rows fresh
      from the server and present on rows the front end has merged. */
  datatype Item = Item(
    assetId: string,
    name: Field,
    imageUrl: Field,
    species: Field,
    owned: bool,
    assetIds: Option<seq<string>>)

  /** The merge key `${name}::${image_url}`: a plain string, so a name that
      itself holds "::" can collide with another name and image. */
  function Key(item: Item): string {
    Text(item.name) + "::" + Text(item.imageUrl)
  }

  /** No two rows share a merge key. */
  predicate DistinctKeyed(items: seq<Item>) {
    forall i, j :: 0 <= i < j < |items| ==> Key(items[i]) != Key(items[j])
  }

  /** The keys that occur in `items`. */
  function KeySet(items: seq<Item>): set<string>
    decreases |items|
  {
    if |items| == 0 then {} else KeySet(items[..|items| - 1]) + {Key(items[|items| - 1])}
  }

  lemma KeySetSnoc(s: seq<Item>, x: Item)
    ensures KeySet(s + [x]) == KeySet(s) + {Key(x)}
  {
    assert (s + [x])[..|s|] == s;
  }

  lemma {:induction false} KeyInKeySet(items: seq<Item>, i: nat)
    requires i < |items|
    ensures Key(items[i]) in KeySet(items)
    decreases |items|
  {
    if i < |items| - 1 {
      var p := items[..|items| - 1];
      assert items[i] == p[i];
      KeyInKeySet(p, i);
    }
  }

  /** A row that carries a key of the set. */
  lemma {:induction false} KeyWitness(items: seq<Item>, k: string) returns (i: nat)
    requires k in KeySet(items)
    ensures i < |items| && Key(items[i]) == k
    decreases |items|
  {
    var p := items[..|items| - 1];
    if k == Key(items[|items| - 1]) {
      i := |items| - 1;
    } else {
      i := KeyWitness(p, k);
      assert items[i] == p[i];
    }
  }

  /** A key that no row carries. */
  lemma {:induction false} NotInKeySet(items: seq<Item>, k: string)
    requires k !in KeySet(items)
    ensures forall i :: 0 <= i < |items| ==> Key(items[i]) != k
  {
    forall i | 0 <= i < |items|
      ensures Key(items[i]) != k
    {
      KeyInKeySet(items, i);
    }
  }

  /** A key that no row carries is not in the set. */
  lemma {:induction false} AbsentFromKeySet(items: seq<Item>, k: string)
    requires forall i :: 0 <= i < |items| ==> Key(items[i]) != k
    ensures k !in KeySet(items)
    decreases |items|
  {
    if |items| > 0 {
      var p := items[..|items| - 1];
      assert forall i :: 0 <= i < |p| ==> p[i] == items[i];
      AbsentFromKeySet(p, k);
    }
  }

  lemma {:induction false} KeySetConcat(s: seq<Item>, t: seq<Item>)
    ensures KeySet(s + t) == KeySet(s) + KeySet(t)
    decreases |t|
  {
    if |t| == 0 {
      assert s + t == s;
    } else {
      var tp, x := t[..|t| - 1], t[|t| - 1];
      assert s + t == (s + tp) + [x];
      assert t == tp + [x];
      KeySetSnoc(s + tp, x);
      KeySetSnoc(tp, x);
      KeySetConcat(s, tp);
    }
  }

  /** The key is a plain concatenation: a name holding "::" can give the key of
      another name and image. */
  lemma SeparatorCollision(a: Item, b: Item)
    requires a.name == Str("Fox::a") && a.imageUrl == Str("b.png")
    requires b.name == Str("Fox") && b.imageUrl == Str("a::b.png")
    ensures Key(a) == Key(b)
  {
  }

  /** A missing image shows as the text "null", so it shares the key of an
      image URL that is literally "null". */
  lemma MissingImageCollision(a: Item, b: Item)
    requires a.name == b.name && a.imageUrl == Null && b.imageUrl == Str("null")
    ensures Key(a) == Key(b)
  {
  }
}
