/** The text helpers of the front end: the HTML escaper `h`, the shortened
    addresses of the leaderboard and the wallet button, the tier class and tier
    label of a holder, the ownership class and edition label of a card, and the
    clipboard text of a tier's qualified addresses. */
module Render {
  import opened JsText
  import opened Wrappers
  import opened Items
  import opened Dedup

  /** The entity `h` writes for one character. */
  function EscapeChar(c: char): (r: string)
    ensures |r| >= 1
  {
    match c
    case '&' => "&amp;"
    case '<' => "&lt;"
    case '>' => "&gt;"
    case '"' => "&quot;"
    case '\'' => "&#39;"
    case _ => [c]
  }

  /** A character `h` replaces. */
  predicate Special(c: char) {
    c == '&' || c == '<' || c == '>' || c == '"' || c == '\''
  }

  /** The `replace(/[&<>"']/g, …)` of `h`: one entity per special character, every
      other character as it is. */
  function Escape(s: string): (r: string)
    ensures |r| >= |s|
    ensures forall i :: 0 <= i < |r| ==> r[i] != '<' && r[i] != '>' && r[i] != '"' && r[i] != '\''
    ensures (forall i :: 0 <= i < |s| ==> !Special(s[i])) ==> r == s
    decreases |s|
  {
    if |s| == 0 then "" else EscapeChar(s[0]) + Escape(s[1..])
  }

  /** `h(s)`: a falsy value gives "", anything else its escaped text. */
  function H(f: Field): (r: string)
    ensures !Truthy(f) ==> r == ""
    ensures Truthy(f) ==> |r| >= 1 && r == Escape(Text(f))
    ensures forall i :: 0 <= i < |r| ==> r[i] != '<' && r[i] != '>' && r[i] != '"' && r[i] != '\''
    ensures Truthy(f) ==> Unescape(r) == Text(f)
  {
    EscapeRoundTrip(Text(f));
    if Truthy(f) then Escape(Text(f)) else ""
  }

  /** `s` starts with `p`. */
  predicate StartsWith(s: string, p: string) {
    |p| <= |s| && s[..|p|] == p
  }

  /** Reading the five entities back: the inverse of `Escape`. */
  function Unescape(s: string): string
    decreases |s|
  {
    if |s| == 0 then ""
    else if StartsWith(s, "&amp;") then "&" + Unescape(s[5..])
    else if StartsWith(s, "&lt;") then "<" + Unescape(s[4..])
    else if StartsWith(s, "&gt;") then ">" + Unescape(s[4..])
    else if StartsWith(s, "&quot;") then "\"" + Unescape(s[6..])
    else if StartsWith(s, "&#39;") then "'" + Unescape(s[5..])
    else [s[0]] + Unescape(s[1..])
  }

  /** The first two characters of a prefix are those of the text. */
  lemma PrefixHead(e: string, n: nat)
    requires 2 <= n <= |e|
    ensures e[..n][0] == e[0] && e[..n][1] == e[1]
  {
  }

  lemma UnescapeStep(c: char, t: string)
    ensures Unescape(EscapeChar(c) + t) == [c] + Unescape(t)
  {
    var x := EscapeChar(c);
    var e := x + t;
    assert e[..|x|] == x;
    assert e[|x|..] == t;
    assert e[0] == x[0];
    if |x| >= 2 {
      assert e[1] == x[1];
    }
    forall n | 2 <= n <= |e| && 4 <= n <= 6
      ensures e[..n][0] == e[0] && e[..n][1] == e[1]
    {
      PrefixHead(e, n);
    }
  }

  /** Escaping loses nothing: the original text can be read back. */
  lemma {:induction false} EscapeRoundTrip(s: string)
    ensures Unescape(Escape(s)) == s
    decreases |s|
  {
    if |s| > 0 {
      UnescapeStep(s[0], Escape(s[1..]));
      EscapeRoundTrip(s[1..]);
    }
  }

  /** `h(f || fallback)` as the card writes its alt text, name and species. */
  function CardText(f: Field, fallback: string): (r: string)
    requires fallback != ""
    ensures |r| >= 1
    ensures Truthy(f) ==> Unescape(r) == Text(f)
    ensures !Truthy(f) ==> Unescape(r) == fallback
  {
    var shown := if Truthy(f) then Text(f) else fallback;
    EscapeRoundTrip(shown);
    Escape(shown)
  }

  /** The first `k` and last `k` characters with "..." between: the whole text on
      both sides when it is shorter than `k`. */
  function Abbrev(s: string, k: nat): (r: string)
    ensures |s| >= k ==> |r| == 2 * k + 3
  {
    s[..Min(k, |s|)] + "..." + s[Max(0, |s| - k)..]
  }

  /** `formatAddress`: "N/A" for a missing address, otherwise
      `substring(0, 8)` and `substring(length - 8)` around "...". */
  function FormatAddress(address: Field): (r: string)
    ensures !Truthy(address) ==> r == "N/A"
    ensures Truthy(address) && |Text(address)| >= 8 ==>
      var a := Text(address); r == a[..8] + "..." + a[|a| - 8..]
  {
    if !Truthy(address) then "N/A"
    else
      var a := Text(address);
      Substring(a, 0, 8) + "..." + Substring(a, |a| - 8, |a|)
  }

  /** The wallet button label: `wallet.slice(0, 4) + '...' + wallet.slice(-4)`. */
  function WalletLabel(wallet: string): (r: string)
    ensures |wallet| >= 4 ==> r == wallet[..4] + "..." + wallet[|wallet| - 4..]
    ensures |wallet| < 4 ==> r == wallet + "..." + wallet
  {
    Slice(wallet, 0, 4) + "..." + Slice(wallet, -4, |wallet|)
  }

  /** Both shortenings keep the first and last characters around "...", eight of
      each for a leaderboard address and four for the wallet, even though one is
      written with `substring` and the other with `slice`. */
  lemma ShortFormsAgree(address: string, wallet: string)
    requires address != ""
    ensures FormatAddress(Str(address)) == Abbrev(address, 8)
    ensures WalletLabel(wallet) == Abbrev(wallet, 4)
  {
  }

  /** A short form of a long enough address is its first and last characters:
      the address starts with the part before "..." and ends with the part after. */
  lemma AbbrevParts(s: string, k: nat)
    requires |s| >= 2 * k
    ensures var r := Abbrev(s, k);
      r == s[..k] + "..." + s[|s| - k..] && |r| == 2 * k + 3 &&
      r[k..k + 3] == "..." && r[k + 3..] == s[|s| - k..]
  {
  }

  /** `a + b` contains its prefix `a`. */
  lemma ContainsPrefix(s: string, a: string, b: string)
    requires Contains(s, a + b)
    ensures Contains(s, a)
  {
    var i :| 0 <= i <= |s| - |a + b| && OccursAt(s, a + b, i);
    assert (a + b)[..|a|] == a;
    assert s[i..i + |a|] == s[i..i + |a + b|][..|a|];
    assert OccursAt(s, a, i);
  }

  /** `getTierClass(tier)`: the class of the first of Top 3, Top 10, Top 30,
      Top 100 and 500K+ that the tier text contains. Since "Top 30" contains
      "Top 3" and "Top 100" contains "Top 10", the `top30` and `top100` classes
      are never chosen. */
  function TierClass(tier: string): (r: string)
    ensures r == "top3" <==> Contains(tier, "Top 3")
    ensures r == "top10" <==> !Contains(tier, "Top 3") && Contains(tier, "Top 10")
    ensures r == "common" <==> !Contains(tier, "Top 3") && !Contains(tier, "Top 10") && Contains(tier, "500K+")
    ensures r == "none" <==> !Contains(tier, "Top 3") && !Contains(tier, "Top 10") && !Contains(tier, "500K+")
    ensures r != "top30" && r != "top100"
  {
    TierShadowing(tier);
    if Contains(tier, "Top 3") then "top3"
    else if Contains(tier, "Top 10") then "top10"
    else if Contains(tier, "Top 30") then "top30"
    else if Contains(tier, "Top 100") then "top100"
    else if Contains(tier, "500K+") then "common"
    else "none"
  }

  /** "Top 30" is never seen without "Top 3", nor "Top 100" without "Top 10". */
  lemma TierShadowing(tier: string)
    ensures Contains(tier, "Top 30") ==> Contains(tier, "Top 3")
    ensures Contains(tier, "Top 100") ==> Contains(tier, "Top 10")
  {
    if Contains(tier, "Top 30") {
      assert "Top 30" == "Top 3" + "0";
      ContainsPrefix(tier, "Top 3", "0");
    }
    if Contains(tier, "Top 100") {
      assert "Top 100" == "Top 10" + "0";
      ContainsPrefix(tier, "Top 10", "0");
    }
  }

  /** One tier of a combined tier text, shortened: the first of Top 3, Top 10,
      Top 30, Top 100 and 500K+ it names, or else its text before " (". */
  function ShortTier(t: string): (r: string)
    ensures r != "Top 30" && r != "Top 100"
    ensures r in ["Top 3", "Top 10", "500K+"] || r == BeforeFirst(t, " (")
    ensures r == "Top 3" <==> Contains(t, "Top 3")
    ensures r == "Top 10" <==> !Contains(t, "Top 3") && Contains(t, "Top 10")
    ensures r == "500K+" <==> !Contains(t, "Top 3") && !Contains(t, "Top 10") && Contains(t, "500K+")
    ensures !Contains(t, "Top 3") && !Contains(t, "Top 10") && !Contains(t, "500K+") ==> r == BeforeFirst(t, " (")
  {
    TierShadowing(t);
    if Contains(t, "Top 3") then "Top 3"
    else if Contains(t, "Top 10") then "Top 10"
    else if Contains(t, "Top 30") then "Top 30"
    else if Contains(t, "Top 100") then "Top 100"
    else if Contains(t, "500K+") then "500K+"
    else
      var p := BeforeFirst(t, " (");
      PrefixContains(t, p, "Top 3");
      PrefixContains(t, p, "Top 10");
      PrefixContains(t, p, "500K+");
      LongNamesContainShort();
      assert OccursAt("Top 3", "Top 3", 0) && OccursAt("Top 10", "Top 10", 0) && OccursAt("500K+", "500K+", 0);
      p
  }

  /** What a prefix contains, the whole text contains. */
  lemma PrefixContains(s: string, p: string, sub: string)
    requires p <= s
    ensures Contains(p, sub) ==> Contains(s, sub)
  {
    if Contains(p, sub) {
      var i :| 0 <= i <= |p| - |sub| && OccursAt(p, sub, i);
      assert s[i..i + |sub|] == p[i..i + |sub|];
      assert OccursAt(s, sub, i);
    }
  }

  /** "Top 30" and "Top 100" contain "Top 3" and "Top 10". */
  lemma LongNamesContainShort()
    ensures Contains("Top 30", "Top 3") && Contains("Top 100", "Top 10")
  {
    assert OccursAt("Top 30", "Top 3", 0);
    assert OccursAt("Top 100", "Top 10", 0);
  }

  function MapShort(ts: seq<string>): (r: seq<string>)
    ensures |r| == |ts| && forall i :: 0 <= i < |ts| ==> r[i] == ShortTier(ts[i])
    decreases |ts|
  {
    if |ts| == 0 then [] else [ShortTier(ts[0])] + MapShort(ts[1..])
  }

  /** `formatTierDisplay(tier)`: a combined tier "A + B + …" is shortened tier by
      tier and joined again; a single tier loses everything from " (" on. */
  function FormatTierDisplay(tier: string): (r: string)
    ensures !Contains(tier, " + ") ==> r <= tier && !Contains(r, " (")
    ensures !Contains(tier, " + ") && !Contains(tier, " (") ==> r == tier
    ensures !Contains(tier, " + ") && Contains(tier, " (") ==> OccursAt(tier, " (", |r|)
  {
    if Contains(tier, " + ") then Join(MapShort(Split(tier, " + ")), " + ")
    else BeforeFirst(tier, " (")
  }

  /** A combined tier keeps one label per part: a part naming Top 3 or Top 30
      reads "Top 3", one naming Top 10 or Top 100 but not Top 3 reads "Top 10"
      (the longer names are shadowed), one naming only 500K+ reads "500K+", and a
      part naming none of the five keeps its text before " (". */
  lemma CombinedTierParts(tier: string)
    requires Contains(tier, " + ")
    ensures var parts := Split(tier, " + "); var short := MapShort(parts);
      FormatTierDisplay(tier) == Join(short, " + ") && |short| == |parts| &&
      forall i :: 0 <= i < |parts| ==>
        (Contains(parts[i], "Top 3") ==> short[i] == "Top 3") &&
        (!Contains(parts[i], "Top 3") && Contains(parts[i], "Top 10") ==> short[i] == "Top 10") &&
        (!Contains(parts[i], "Top 3") && !Contains(parts[i], "Top 10") && Contains(parts[i], "500K+") ==>
          short[i] == "500K+") &&
        (!Contains(parts[i], "Top 3") && !Contains(parts[i], "Top 10") && !Contains(parts[i], "500K+") ==>
          short[i] == BeforeFirst(parts[i], " ("))
  {
    var parts := Split(tier, " + ");
    var short := MapShort(parts);
    forall i | 0 <= i < |parts|
      ensures short[i] == ShortTier(parts[i])
    {
    }
  }

  /** The ownership class of a card: without a wallet every card is greyed out,
      with one a card is coloured when owned. */
  function CardClass(walletConnected: bool, owned: bool): (r: string)
    ensures !walletConnected ==> r == "entry not-logged-in"
    ensures walletConnected ==> (r == "entry owned" <==> owned)
    ensures walletConnected && !owned ==> r == "entry unowned"
  {
    var cardClass := "entry";
    if !walletConnected then cardClass + " not-logged-in"
    else if owned then cardClass + " owned"
    else cardClass + " unowned"
  }

  /** The class `updateOwnershipStatus` sets on a card already on screen. */
  function UpdatedCardClass(walletConnected: bool, owned: bool): (r: string)
    ensures !walletConnected ==> r == "entry not-logged-in"
    ensures walletConnected ==> (r == "entry owned" <==> owned)
    ensures walletConnected && !owned ==> r == "entry unowned"
  {
    "entry " + (if !walletConnected then "not-logged-in" else if owned then "owned" else "unowned")
  }

  /** Redrawing a card and updating its class after a wallet change agree. */
  lemma CardClassesAgree(walletConnected: bool, owned: bool)
    ensures CardClass(walletConnected, owned) == UpdatedCardClass(walletConnected, owned)
  {
  }

  /** The edition note of a card: `(n editions)` when the record carries a variant
      list, which an empty list also is, and nothing otherwise. */
  function EditionLabel(assetIds: Option<seq<string>>): (r: string)
    ensures assetIds.None? <==> r == ""
  {
    match assetIds
    case None => ""
    case Some(ids) => "(" + Decimal(|ids|) + " editions)"
  }

  /** Every card the reducer produces shows an edition note, counting the rows of
      the input that carry its key. */
  lemma MergedEditionLabel(items: seq<Item>, j: nat)
    requires j < |Merged(items)|
    ensures var m := Merged(items)[j];
      EditionLabel(m.assetIds) == "(" + Decimal(|IdsWithKey(items, Key(m))|) + " editions)" &&
      |IdsWithKey(items, Key(m))| >= 1
  {
    MergedKeys(items);
    var k := DistinctKeys(items)[j];
    assert k in KeySet(items);
    IdsNonEmpty(items, k);
  }

  /** A key that occurs has at least one id. */
  lemma {:induction false} IdsNonEmpty(items: seq<Item>, k: string)
    requires k in KeySet(items)
    ensures |IdsWithKey(items, k)| >= 1
    decreases |items|
  {
    var p := items[..|items| - 1];
    if Key(items[|items| - 1]) != k {
      IdsNonEmpty(p, k);
    }
  }

  /** A holder of the leaderboard data, with the conditions it qualifies for, if
      the server sent them. */
  datatype Holder = Holder(address: string, qualifications: Option<map<string, bool>>)

  /** `holder.qualifications && holder.qualifications[condition]`. */
  predicate Qualifies(h: Holder, condition: string) {
    h.qualifications.Some? && condition in h.qualifications.value && h.qualifications.value[condition]
  }

  /** The addresses of the holders that qualify, in order. */
  function QualifiedAddresses(holders: seq<Holder>, condition: string): (r: seq<string>)
    ensures |r| <= |holders|
    ensures forall a :: a in r ==> exists i :: 0 <= i < |holders| && holders[i].address == a && Qualifies(holders[i], condition)
    ensures forall i :: 0 <= i < |holders| && Qualifies(holders[i], condition) ==> holders[i].address in r
    ensures |holders| == 1 ==> r == if Qualifies(holders[0], condition) then [holders[0].address] else []
    decreases |holders|
  {
    if |holders| == 0 then []
    else
      var rest := QualifiedAddresses(holders[1..], condition);
      assert forall i :: 1 <= i < |holders| ==> holders[i] == holders[1..][i - 1];
      if Qualifies(holders[0], condition) then [holders[0].address] + rest else rest
  }

  /** The filter keeps order and repeats: filtering two lists one after the
      other is filtering their concatenation. With the one-holder case of
      `QualifiedAddresses` this fixes the result holder by holder. */
  lemma {:induction false} QualifiedConcat(a: seq<Holder>, b: seq<Holder>, condition: string)
    ensures QualifiedAddresses(a + b, condition) ==
      QualifiedAddresses(a, condition) + QualifiedAddresses(b, condition)
    decreases |a|
  {
    if |a| == 0 {
      assert a + b == b;
    } else {
      assert (a + b)[1..] == a[1..] + b;
      assert (a + b)[0] == a[0];
      QualifiedConcat(a[1..], b, condition);
    }
  }

  /** Every address followed by a comma. */
  function WithCommas(addresses: seq<string>): (r: seq<string>)
    ensures |r| == |addresses| && forall i :: 0 <= i < |r| ==> r[i] == addresses[i] + ","
    decreases |addresses|
  {
    if |addresses| == 0 then [] else [addresses[0] + ","] + WithCommas(addresses[1..])
  }

  /** The clipboard text of `copyQualifiedAddresses`: nothing when there are no
      holders or none qualifies (an alert is shown instead), otherwise one
      address per line, each followed by a comma. */
  function ClipboardText(holders: seq<Holder>, condition: string): (r: Option<string>)
    ensures r.None? <==> QualifiedAddresses(holders, condition) == []
  {
    if |holders| == 0 then None
    else
      var qualified := QualifiedAddresses(holders, condition);
      if |qualified| == 0 then None else Some(Join(WithCommas(qualified), "\n"))
  }

  /** Addresses hold no line break, so the lines of the clipboard text are the
      qualified addresses, in order, each with its comma. */
  lemma ClipboardLines(holders: seq<Holder>, condition: string)
    requires forall i :: 0 <= i < |holders| ==> '\n' !in holders[i].address
    requires ClipboardText(holders, condition).Some?
    ensures Split(ClipboardText(holders, condition).value, "\n") ==
      WithCommas(QualifiedAddresses(holders, condition))
  {
    var lines := WithCommas(QualifiedAddresses(holders, condition));
    forall i | 0 <= i < |lines|
      ensures '\n' !in lines[i]
    {
      var q := QualifiedAddresses(holders, condition);
      assert q[i] in q;
    }
    SplitJoin(lines, '\n');
  }
}
