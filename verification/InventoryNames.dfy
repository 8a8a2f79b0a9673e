/**
  The index of an inventory's descriptions.  Each asset is stored under its id and claims the keys of
  its names; a name key that two different class and instance pairs claim is dropped for good and
  marked as ambiguous.  Ids, name keys and marks share one map.

  `lower` stands for strings.ToLower.
 */
module InventoryNames {
  import opened Prelude
  import opened Strings

  type Lower = string -> string

  datatype Description = Description(
    classID: string, instanceID: string, assetID: string, marketHashName: string, marketName: string, name: string)
  {
    /** What identifies the kind of item. */
    function Pair(): (string, string) {
      (classID, instanceID)
    }
  }

  datatype Asset = Asset(id: string, classID: string, instanceID: string)

  /** One page of the inventory. */
  datatype Page = Page(descriptions: seq<Description>, assets: seq<Asset>)

  type Index = map<string, Description>

  const NO_DESCRIPTION := Description("", "", "", "", "", "")

  function Mark(key: string): string {
    "ambiguous:" + key
  }

  // ----- the keys of a name -----

  function NameKey(lower: Lower, name: string): (key: string)
    ensures key != "" ==> IsNameKey(key)
  {
    var n := lower(TrimSpace(name));
    if n == "" then "" else "name:" + n
  }

  predicate IsNameKey(key: string) {
    HasPrefix(key, "name:")
  }

  /** The key of the name, and of the name without a last part in parentheses. */
  function NameKeys(lower: Lower, name: string): (keys: seq<string>)
    ensures forall key <- keys :: IsNameKey(key)
  {
    var exact := NameKey(lower, name);
    if exact == "" then []
    else
      var normalized := TrimSpace(name);
      var cut := LastIndex(normalized, " (");
      if cut > 0 && HasSuffix(normalized, ")") then
        var base := NameKey(lower, normalized[..cut]);
        if base != "" && base != exact then [exact, base] else [exact]
      else [exact]
  }

  function Keys(lower: Lower, d: Description): (keys: seq<string>)
    ensures forall key <- keys :: IsNameKey(key)
  {
    NameKeys(lower, d.marketHashName) + NameKeys(lower, d.marketName) + NameKeys(lower, d.name)
  }

  /** What stands before the last part of a name, if that is in parentheses, ends at the cut. */
  ghost predicate CutAt(n: string, cut: int) {
    0 < cut && OccursAt(n, " (", cut) && n[|n| - 1] == ')' && forall j :: cut < j ==> !OccursAt(n, " (", j)
  }

  /** The text names the key: by all of it, or by what stands before its last part, if that is in parentheses. */
  ghost predicate NamesKey(lower: Lower, text: string, key: string) {
    var n := TrimSpace(text);
    && lower(n) != ""
    && (|| key == "name:" + lower(n)
        || exists cut ::
             CutAt(n, cut) && lower(TrimSpace(n[..cut])) != "" && key == "name:" + lower(TrimSpace(n[..cut])))
  }

  /** There is such a cut exactly where the last such part is found. */
  lemma CutIs(n: string, cut: int)
    ensures CutAt(n, cut) <==> cut > 0 && LastIndex(n, " (") == cut && HasSuffix(n, ")")
  {
    assert n != "" ==> n[|n| - 1..] == [n[|n| - 1]];
  }

  lemma NameKeysIs(lower: Lower, text: string, key: string)
    ensures key in NameKeys(lower, text) <==> NamesKey(lower, text, key)
  {
    var n := TrimSpace(text);
    var last := LastIndex(n, " (");
    if last > 0 {
      CutIs(n, last);
    }
    forall cut | CutAt(n, cut) ensures cut == last && HasSuffix(n, ")") {
      CutIs(n, cut);
    }
  }

  /** An asset has the keys of its three names. */
  lemma KeysIs(lower: Lower, d: Description, key: string)
    ensures key in Keys(lower, d) <==>
            NamesKey(lower, d.marketHashName, key) || NamesKey(lower, d.marketName, key) || NamesKey(lower, d.name, key)
  {
    NameKeysIs(lower, d.marketHashName, key);
    NameKeysIs(lower, d.marketName, key);
    NameKeysIs(lower, d.name, key);
  }

  // ----- claims -----

  function Claim(out: Index, key: string, d: Description): Index {
    if Mark(key) in out then out
    else if key !in out || out[key].Pair() == d.Pair() then out[key := d]
    else (out - {key})[Mark(key) := NO_DESCRIPTION]
  }

  function ClaimAll(out: Index, keys: seq<string>, d: Description): Index
    decreases |keys|
  {
    if keys == [] then out else ClaimAll(Claim(out, keys[0], d), keys[1..], d)
  }

  function AddAsset(lower: Lower, out: Index, d: Description): Index {
    ClaimAll(out[d.assetID := d], Keys(lower, d), d)
  }

  function AddAssets(lower: Lower, out: Index, assets: seq<Description>): Index
    decreases |assets|
  {
    if assets == [] then out else AddAssets(lower, AddAsset(lower, out, assets[0]), assets[1..])
  }

  // ----- the name keys -----

  /** A key is present if just one pair claims it, is marked if two do, and neither if none does. */
  ghost predicate Settled(out: Index, key: string, pairs: set<(string, string)>) {
    && (key in out ==> pairs == {out[key].Pair()} && Mark(key) !in out)
    && (Mark(key) in out ==> exists p, q :: p in pairs && q in pairs && p != q)
    && (key !in out && Mark(key) !in out ==> pairs == {})
  }

  lemma SettledClaim(out: Index, key: string, pairs: set<(string, string)>, claimed: string, d: Description)
    requires IsNameKey(key) && IsNameKey(claimed) && Settled(out, key, pairs)
    ensures Settled(Claim(out, claimed, d), key, if claimed == key then pairs + {d.Pair()} else pairs)
  {
    assert Mark(claimed)[0] == 'a' && key[0] == 'n' && claimed[0] == 'n' && Mark(key)[0] == 'a';
    assert Mark(claimed)[|"ambiguous:"|..] == claimed && Mark(key)[|"ambiguous:"|..] == key;
  }

  lemma {:induction false} SettledClaims(out: Index, key: string, pairs: set<(string, string)>, keys: seq<string>,
                                         d: Description)
    requires IsNameKey(key) && (forall k <- keys :: IsNameKey(k)) && Settled(out, key, pairs)
    ensures Settled(ClaimAll(out, keys, d), key, if key in keys then pairs + {d.Pair()} else pairs)
    decreases |keys|
  {
    if keys == [] {
    } else {
      SettledClaim(out, key, pairs, keys[0], d);
      var pairs1 := if keys[0] == key then pairs + {d.Pair()} else pairs;
      SettledClaims(Claim(out, keys[0], d), key, pairs1, keys[1..], d);
      assert pairs + {d.Pair()} + {d.Pair()} == pairs + {d.Pair()};
    }
  }

  /** The pairs of the assets whose names have the key. */
  function PairsOf(lower: Lower, assets: seq<Description>, key: string): set<(string, string)> {
    set d <- assets | key in Keys(lower, d) :: d.Pair()
  }

  /** No asset id is spelled like the key or its mark. */
  predicate Apart(assets: seq<Description>, key: string) {
    forall d <- assets :: d.assetID != key && d.assetID != Mark(key)
  }

  lemma SettledAsset(lower: Lower, out: Index, key: string, pairs: set<(string, string)>, d: Description)
    requires IsNameKey(key) && d.assetID != key && d.assetID != Mark(key) && Settled(out, key, pairs)
    ensures Settled(AddAsset(lower, out, d), key, if key in Keys(lower, d) then pairs + {d.Pair()} else pairs)
  {
    SettledClaims(out[d.assetID := d], key, pairs, Keys(lower, d), d);
  }

  lemma PairsOfMore(lower: Lower, assets: seq<Description>, key: string, pairs: set<(string, string)>)
    requires assets != []
    ensures pairs + PairsOf(lower, assets, key) ==
            (if key in Keys(lower, assets[0]) then pairs + {assets[0].Pair()} else pairs) +
            PairsOf(lower, assets[1..], key)
  {
    var d := assets[0];
    assert assets == [d] + assets[1..];
    assert PairsOf(lower, assets, key) ==
           (if key in Keys(lower, d) then {d.Pair()} else {}) + PairsOf(lower, assets[1..], key);
  }

  lemma {:induction false} SettledAssets(lower: Lower, out: Index, key: string, pairs: set<(string, string)>,
                                         assets: seq<Description>)
    requires IsNameKey(key) && Apart(assets, key) && Settled(out, key, pairs)
    ensures Settled(AddAssets(lower, out, assets), key, pairs + PairsOf(lower, assets, key))
    decreases |assets|
  {
    if assets == [] {
      assert pairs + PairsOf(lower, assets, key) == pairs;
    } else {
      assert assets[0] in assets;
      SettledAsset(lower, out, key, pairs, assets[0]);
      PairsOfMore(lower, assets, key, pairs);
      SettledAssets(lower, AddAsset(lower, out, assets[0]), key,
                    if key in Keys(lower, assets[0]) then pairs + {assets[0].Pair()} else pairs, assets[1..]);
    }
  }

  lemma SettledIff(out: Index, key: string, pairs: set<(string, string)>)
    requires Settled(out, key, pairs)
    ensures key in out <==> |pairs| == 1
    ensures key in out ==> pairs == {out[key].Pair()}
    ensures Mark(key) in out <==> |pairs| > 1
  {
    if p, q :| p in pairs && q in pairs && p != q {
      assert |pairs - {p, q}| == |pairs| - |{p, q}|;
    }
  }

  /**
    A name key is in the index exactly when a single pair claims it, with that pair, and is marked as
    ambiguous exactly when two pairs do; it is never both.
   */
  lemma NamePresentIff(lower: Lower, assets: seq<Description>, key: string)
    requires IsNameKey(key) && Apart(assets, key)
    ensures var out, pairs := AddAssets(lower, map[], assets), PairsOf(lower, assets, key);
      && (key in out <==> |pairs| == 1)
      && (key in out ==> pairs == {out[key].Pair()})
      && (Mark(key) in out <==> |pairs| > 1)
  {
    var out, pairs := AddAssets(lower, map[], assets), PairsOf(lower, assets, key);
    SettledAssets(lower, map[], key, {}, assets);
    assert {} + pairs == pairs;
    SettledIff(out, key, pairs);
  }

  lemma SamePairs(lower: Lower, a: seq<Description>, b: seq<Description>, key: string)
    requires multiset(a) == multiset(b)
    ensures PairsOf(lower, a, key) == PairsOf(lower, b, key)
    ensures Apart(a, key) ==> Apart(b, key)
  {
    assert forall d :: d in a <==> d in multiset(a);
    assert forall d :: d in b <==> d in multiset(b);
  }

  /** So the order of the assets does not matter to the names. */
  lemma OrderDoesNotMatter(lower: Lower, a: seq<Description>, b: seq<Description>, key: string)
    requires IsNameKey(key) && Apart(a, key) && multiset(a) == multiset(b)
    ensures var x, y := AddAssets(lower, map[], a), AddAssets(lower, map[], b);
      && (key in x <==> key in y)
      && (key in x ==> x[key].Pair() == y[key].Pair())
      && (Mark(key) in x <==> Mark(key) in y)
  {
    SamePairs(lower, a, b, key);
    NamePresentIff(lower, a, key);
    NamePresentIff(lower, b, key);
    var x, y := AddAssets(lower, map[], a), AddAssets(lower, map[], b);
    if key in x {
      assert x[key].Pair() in {y[key].Pair()};
    }
  }

  // ----- the loops -----

  /** The descriptions of a page by class and instance; the last one of a pair wins. */
  function ByPair(descriptions: seq<Description>): Index {
    if descriptions == [] then map[]
    else
      var n := |descriptions| - 1;
      ByPair(descriptions[..n])[descriptions[n].classID + "_" + descriptions[n].instanceID := descriptions[n]]
  }

  /** The descriptions of the assets that have one. */
  function Described(descriptions: Index, assets: seq<Asset>): seq<Description> {
    if assets == [] then []
    else
      var key := assets[0].classID + "_" + assets[0].instanceID;
      (if key in descriptions then [descriptions[key].(assetID := assets[0].id)] else [])
      + Described(descriptions, assets[1..])
  }

  function AllDescribed(pages: seq<Page>): seq<Description> {
    if pages == [] then []
    else Described(ByPair(pages[0].descriptions), pages[0].assets) + AllDescribed(pages[1..])
  }

  lemma {:induction false} AddAssetsConcat(lower: Lower, out: Index, a: seq<Description>, b: seq<Description>)
    ensures AddAssets(lower, out, a + b) == AddAssets(lower, AddAssets(lower, out, a), b)
    decreases |a|
  {
    if a == [] {
      assert a + b == b;
    } else {
      assert (a + b)[0] == a[0] && (a + b)[1..] == a[1..] + b;
      AddAssetsConcat(lower, AddAsset(lower, out, a[0]), a[1..], b);
    }
  }

  predicate LastPair(descriptions: seq<Description>, key: string, i: nat) {
    && i < |descriptions| && descriptions[i].classID + "_" + descriptions[i].instanceID == key
    && forall j :: i < j < |descriptions| ==> descriptions[j].classID + "_" + descriptions[j].instanceID != key
  }

  lemma {:induction false} ByPairIs(descriptions: seq<Description>, key: string)
    ensures key in ByPair(descriptions) <==> exists i: nat :: LastPair(descriptions, key, i)
    ensures forall i: nat :: LastPair(descriptions, key, i) ==>
      key in ByPair(descriptions) && ByPair(descriptions)[key] == descriptions[i]
  {
    if descriptions == [] {
    } else {
      var n := |descriptions| - 1;
      ByPairIs(descriptions[..n], key);
      if descriptions[n].classID + "_" + descriptions[n].instanceID == key {
        assert LastPair(descriptions, key, n);
      } else {
        forall i: nat ensures LastPair(descriptions, key, i) <==> LastPair(descriptions[..n], key, i) {
          assert i < n ==> descriptions[i] == descriptions[..n][i];
        }
      }
    }
  }

  /** An asset has the last description of its class and instance on its page, under its own id, or none. */
  lemma DescribedIs(descriptions: seq<Description>, asset: Asset, i: nat)
    ensures var key, d := asset.classID + "_" + asset.instanceID, Described(ByPair(descriptions), [asset]);
      && (LastPair(descriptions, key, i) ==> d == [descriptions[i].(assetID := asset.id)])
      && ((forall k: nat :: !LastPair(descriptions, key, k)) ==> d == [])
  {
    var key := asset.classID + "_" + asset.instanceID;
    ByPairIs(descriptions, key);
    var none: seq<Asset> := [asset][1..];
    assert none == [];
  }

  /** Each asset in turn. */
  lemma {:induction false} DescribedConcat(descriptions: Index, a: seq<Asset>, b: seq<Asset>)
    ensures Described(descriptions, a + b) == Described(descriptions, a) + Described(descriptions, b)
  {
    if a == [] {
      assert a + b == b;
    } else {
      assert (a + b)[0] == a[0] && (a + b)[1..] == a[1..] + b;
      DescribedConcat(descriptions, a[1..], b);
    }
  }

  // ----- the ids -----

  predicate LastAsset(assets: seq<Description>, id: string, i: nat) {
    i < |assets| && assets[i].assetID == id && forall j :: i < j < |assets| ==> assets[j].assetID != id
  }

  lemma {:induction false} ClaimsKeepIds(out: Index, keys: seq<string>, d: Description, id: string)
    requires (forall k <- keys :: IsNameKey(k)) && !HasPrefix(id, "name:") && !HasPrefix(id, "ambiguous:")
    ensures var after := ClaimAll(out, keys, d); (id in after <==> id in out) && (id in out ==> after[id] == out[id])
    decreases |keys|
  {
    if keys == [] {
    } else {
      assert keys[0] in keys && HasPrefix(Mark(keys[0]), "ambiguous:");
      ClaimsKeepIds(Claim(out, keys[0], d), keys[1..], d, id);
    }
  }

  /** Under an id that is not spelled like a name key or a mark stands the last asset that has it. */
  lemma {:induction false} IdsAreIndexed(lower: Lower, out: Index, assets: seq<Description>, id: string)
    requires !HasPrefix(id, "name:") && !HasPrefix(id, "ambiguous:")
    ensures var after := AddAssets(lower, out, assets);
      && (forall i: nat :: LastAsset(assets, id, i) ==> id in after && after[id] == assets[i])
      && ((forall d <- assets :: d.assetID != id) ==>
            (id in after <==> id in out) && (id in out ==> after[id] == out[id]))
    decreases |assets|
  {
    if assets == [] {
    } else {
      var d := assets[0];
      var next := AddAsset(lower, out, d);
      ClaimsKeepIds(out[d.assetID := d], Keys(lower, d), d, id);
      IdsAreIndexed(lower, next, assets[1..], id);
      forall i: nat | LastAsset(assets, id, i) ensures id in AddAssets(lower, out, assets)
        ensures AddAssets(lower, out, assets)[id] == assets[i]
      {
        if i > 0 {
          assert LastAsset(assets[1..], id, i - 1);
        } else {
          assert forall x <- assets[1..] :: x.assetID != id;
        }
      }
    }
  }

  method ClaimKeys(keys: seq<string>, d: Description, before: Index) returns (out: Index)
    ensures out == ClaimAll(before, keys, d)
  {
    out := before;
    var i := 0;
    while i < |keys|
      invariant 0 <= i <= |keys|
      invariant ClaimAll(before, keys, d) == ClaimAll(out, keys[i..], d)
    {
      var key := keys[i];
      if Mark(key) !in out {
        if key !in out || out[key].Pair() == d.Pair() {
          out := out[key := d];
        } else {
          out := out - {key};
          out := out[Mark(key) := NO_DESCRIPTION];
        }
      }
      assert keys[i..][1..] == keys[i + 1..];
      i := i + 1;
    }
  }

  method IndexPage(lower: Lower, page: Page, before: Index) returns (out: Index)
    ensures out == AddAssets(lower, before, Described(ByPair(page.descriptions), page.assets))
  {
    var descriptions: Index := map[];
    var i := 0;
    while i < |page.descriptions|
      invariant 0 <= i <= |page.descriptions|
      invariant descriptions == ByPair(page.descriptions[..i])
    {
      var d := page.descriptions[i];
      descriptions := descriptions[d.classID + "_" + d.instanceID := d];
      assert page.descriptions[..i + 1][..i] == page.descriptions[..i];
      i := i + 1;
    }
    assert page.descriptions[..i] == page.descriptions;
    out := before;
    i := 0;
    while i < |page.assets|
      invariant 0 <= i <= |page.assets|
      invariant AddAssets(lower, before, Described(descriptions, page.assets)) ==
                AddAssets(lower, out, Described(descriptions, page.assets[i..]))
    {
      var asset := page.assets[i];
      var key := asset.classID + "_" + asset.instanceID;
      assert page.assets[i..][1..] == page.assets[i + 1..];
      if key in descriptions {
        var d := descriptions[key].(assetID := asset.id);
        AddAssetsConcat(lower, out, [d], Described(descriptions, page.assets[i + 1..]));
        AddAssetsOne(lower, out, d);
        out := ClaimKeys(Keys(lower, d), d, out[d.assetID := d]);
      } else {
        assert [] + Described(descriptions, page.assets[i + 1..]) == Described(descriptions, page.assets[i + 1..]);
      }
      i := i + 1;
    }
  }

  lemma AddAssetsOne(lower: Lower, out: Index, d: Description)
    ensures AddAssets(lower, out, [d]) == AddAsset(lower, out, d)
  {}

  /** All pages, as fetched. */
  method LoadInventoryDescriptions(lower: Lower, pages: seq<Page>) returns (out: Index)
    ensures out == AddAssets(lower, map[], AllDescribed(pages))
  {
    out := map[];
    var i := 0;
    while i < |pages|
      invariant 0 <= i <= |pages|
      invariant AddAssets(lower, map[], AllDescribed(pages)) == AddAssets(lower, out, AllDescribed(pages[i..]))
    {
      var page := Described(ByPair(pages[i].descriptions), pages[i].assets);
      AddAssetsConcat(lower, out, page, AllDescribed(pages[i + 1..]));
      assert pages[i..][1..] == pages[i + 1..];
      out := IndexPage(lower, pages[i], out);
      i := i + 1;
    }
  }
}
