/**
  The rarity of an item within a collection.  A tiered loot list, named after its parent and a
  rarity, is evidence that its entries have that rarity; an item for which two rarities are
  evidenced gets none.  Maps are walked in an unspecified order.

  `lower` stands for strings.ToLower.
 */
module CollectionRarities {
  import opened Strings

  type Lists = map<string, seq<string>>
  type Lower = string -> string

  const RARITIES := ["common", "uncommon", "rare", "mythical", "legendary", "ancient", "unusual"]

  function FirstSuffix(child: string, rarities: seq<string>): string {
    if rarities == [] then ""
    else if HasSuffix(child, "_" + rarities[0]) then rarities[0]
    else FirstSuffix(child, rarities[1..])
  }

  /** The rarity that the child's name shows, or the empty string. */
  function NestedRarity(lower: Lower, parent: string, child: string): string {
    var p, c := TrimSuffix(lower(parent), "_lootlist"), lower(child);
    if HasPrefix(c, p + "_") then FirstSuffix(c, RARITIES) else ""
  }

  lemma {:induction false} FirstSuffixIs(child: string, rarities: seq<string>)
    ensures var r := FirstSuffix(child, rarities);
      if exists x <- rarities :: HasSuffix(child, "_" + x) then r in rarities && HasSuffix(child, "_" + r) else r == ""
  {
    if rarities != [] && !HasSuffix(child, "_" + rarities[0]) {
      FirstSuffixIs(child, rarities[1..]);
    }
  }

  lemma LongerSuffix(child: string, a: string, b: string)
    requires HasSuffix(child, "_" + a) && HasSuffix(child, "_" + b) && |a| < |b|
    ensures '_' in b
  {
    var at := |child| - |a| - 1;
    assert child[at..] == "_" + a && child[at] == child[at..][0];
    assert child[|child| - |b| - 1..] == "_" + b;
    assert child[at] == ("_" + b)[|b| - |a|] == b[|b| - |a| - 1];
  }

  /** No name ends in two rarities, so the order in which they are tried does not matter. */
  lemma OneSuffix(child: string, a: string, b: string)
    requires '_' !in a && '_' !in b
    requires HasSuffix(child, "_" + a) && HasSuffix(child, "_" + b)
    ensures a == b
  {
    if |a| < |b| {
      LongerSuffix(child, a, b);
    } else if |b| < |a| {
      LongerSuffix(child, b, a);
    } else {
      assert a == ("_" + a)[1..] && b == ("_" + b)[1..];
    }
  }

  lemma RaritiesAreWords(r: string)
    requires r in RARITIES
    ensures r != "" && '_' !in r
  {}

  /** A child shows a rarity exactly when its name starts with the parent's stem and ends in that rarity. */
  lemma NestedRarityIff(lower: Lower, parent: string, child: string, rarity: string)
    requires rarity in RARITIES
    ensures NestedRarity(lower, parent, child) == rarity <==>
            && HasPrefix(lower(child), TrimSuffix(lower(parent), "_lootlist") + "_")
            && HasSuffix(lower(child), "_" + rarity)
  {
    var c, rarities := lower(child), RARITIES;
    RaritiesAreWords(rarity);
    FirstSuffixIs(c, rarities);
    if HasSuffix(c, "_" + rarity) {
      var r := FirstSuffix(c, rarities);
      RaritiesAreWords(r);
      OneSuffix(c, r, rarity);
    }
  }

  // ----- evidence -----

  function Entries(lists: Lists, name: string): seq<string> {
    if name in lists then lists[name] else []
  }

  type Evidence = set<(string, string)>

  function Shown(evidence: Evidence, item: string): set<string> {
    set p <- evidence | p.0 == item :: p.1
  }

  /** An item has a rarity if just that is shown, is ambiguous if two are shown, and neither if none is. */
  ghost predicate SettledAt(rarities: map<string, string>, ambiguous: set<string>, shown: set<string>, item: string) {
    && (item in rarities ==> shown == {rarities[item]} && item !in ambiguous)
    && (item in ambiguous ==> exists q, r :: q in shown && r in shown && q != r)
    && (item !in rarities && item !in ambiguous ==> shown == {})
  }

  ghost predicate Settled(rarities: map<string, string>, ambiguous: set<string>, evidence: Evidence) {
    forall item :: SettledAt(rarities, ambiguous, Shown(evidence, item), item)
  }

  lemma SettledOneMore(rarities: map<string, string>, ambiguous: set<string>, evidence: Evidence, item: string,
                       r: string, rarities': map<string, string>, ambiguous': set<string>)
    requires Settled(rarities, ambiguous, evidence)
    requires if item in ambiguous then (rarities', ambiguous') == (rarities, ambiguous)
             else if item in rarities && rarities[item] != r then
               (rarities', ambiguous') == (rarities - {item}, ambiguous + {item})
             else (rarities', ambiguous') == (rarities[item := r], ambiguous)
    ensures Settled(rarities', ambiguous', evidence + {(item, r)})
  {
    forall x ensures SettledAt(rarities', ambiguous', Shown(evidence + {(item, r)}, x), x) {
      assert SettledAt(rarities, ambiguous, Shown(evidence, x), x);
      assert Shown(evidence + {(item, r)}, x) == Shown(evidence, x) + if x == item then {r} else {};
    }
  }

  // ----- the evidence of the loot lists -----

  function ItemEvidence(items: seq<string>, members: set<string>, r: string): Evidence {
    set item <- items | item in members :: (item, r)
  }

  function ChildEvidence(lower: Lower, lists: Lists, members: set<string>, parent: string, child: string): Evidence {
    var r := NestedRarity(lower, parent, child);
    if r == "" then {} else ItemEvidence(Entries(lists, child), members, r)
  }

  function ParentEvidence(lower: Lower, lists: Lists, members: set<string>, parent: string,
                          children: seq<string>): Evidence {
    set child <- children, p <- ChildEvidence(lower, lists, members, parent, child) :: p
  }

  function AllEvidence(lower: Lower, lists: Lists, members: set<string>, parents: set<string>): Evidence {
    set parent <- parents, p <- ParentEvidence(lower, lists, members, parent, Entries(lists, parent)) :: p
  }

  /** Some tiered list shows that the item has the rarity. */
  ghost predicate Evident(lower: Lower, lists: Lists, item: string, rarity: string) {
    exists parent <- lists.Keys, child <- Entries(lists, parent) ::
      rarity != "" && NestedRarity(lower, parent, child) == rarity && item in Entries(lists, child)
  }

  /** The child is a tiered list of the parent: the parent's stem stands in front of its name, a rarity behind. */
  predicate IsTier(lower: Lower, parent: string, child: string, rarity: string) {
    && rarity in {"common", "uncommon", "rare", "mythical", "legendary", "ancient", "unusual"}
    && HasPrefix(lower(child), TrimSuffix(lower(parent), "_lootlist") + "_")
    && HasSuffix(lower(child), "_" + rarity)
  }

  lemma IsTierIff(lower: Lower, parent: string, child: string, rarity: string)
    ensures rarity != "" && NestedRarity(lower, parent, child) == rarity <==> IsTier(lower, parent, child, rarity)
  {
    assert rarity in RARITIES <==>
           rarity in {"common", "uncommon", "rare", "mythical", "legendary", "ancient", "unusual"};
    FirstSuffixIs(lower(child), RARITIES);
    if rarity in RARITIES {
      RaritiesAreWords(rarity);
      NestedRarityIff(lower, parent, child, rarity);
    }
  }

  /** A rarity is shown for an item by a tiered list that has the item and is an entry of its parent. */
  lemma EvidentIff(lower: Lower, lists: Lists, item: string, rarity: string)
    ensures Evident(lower, lists, item, rarity) <==>
            exists parent, child ::
              parent in lists && child in lists[parent] && child in lists && item in lists[child] &&
              IsTier(lower, parent, child, rarity)
  {
    if Evident(lower, lists, item, rarity) {
      var parent, child :| parent in lists.Keys && child in Entries(lists, parent) &&
        rarity != "" && NestedRarity(lower, parent, child) == rarity && item in Entries(lists, child);
      IsTierIff(lower, parent, child, rarity);
    }
    if parent, child :| parent in lists && child in lists[parent] && child in lists && item in lists[child] &&
                        IsTier(lower, parent, child, rarity)
    {
      IsTierIff(lower, parent, child, rarity);
    }
  }

  lemma EvidenceIs(lower: Lower, lists: Lists, members: set<string>, item: string, r: string)
    ensures (item, r) in AllEvidence(lower, lists, members, lists.Keys) <==>
            item in members && Evident(lower, lists, item, r)
  {
    if item in members && Evident(lower, lists, item, r) {
      var parent, child :| parent in lists.Keys && child in Entries(lists, parent) &&
        r != "" && NestedRarity(lower, parent, child) == r && item in Entries(lists, child);
      assert (item, r) in ChildEvidence(lower, lists, members, parent, child);
      assert (item, r) in ParentEvidence(lower, lists, members, parent, Entries(lists, parent));
    }
  }

  /** The item belongs to the collection, and the loot lists show this rarity for it and no other. */
  ghost predicate OnlyRarity(lower: Lower, lists: Lists, members: set<string>, item: string, r: string) {
    item in members && Evident(lower, lists, item, r) && forall q :: Evident(lower, lists, item, q) ==> q == r
  }

  /** A collection's rarities: an item has one exactly when it is the only rarity shown for it. */
  ghost predicate AreRarities(lower: Lower, lists: Lists, members: set<string>, rarities: map<string, string>) {
    forall item, r :: OnlyRarity(lower, lists, members, item, r) <==> item in rarities && rarities[item] == r
  }

  lemma SettledIsRarities(lower: Lower, lists: Lists, members: set<string>, rarities: map<string, string>,
                          ambiguous: set<string>)
    requires Settled(rarities, ambiguous, AllEvidence(lower, lists, members, lists.Keys))
    ensures AreRarities(lower, lists, members, rarities)
  {
    var all := AllEvidence(lower, lists, members, lists.Keys);
    forall item, r
      ensures OnlyRarity(lower, lists, members, item, r) <==> item in rarities && rarities[item] == r
    {
      var shown := Shown(all, item);
      assert SettledAt(rarities, ambiguous, shown, item);
      forall q ensures q in shown <==> item in members && Evident(lower, lists, item, q) {
        EvidenceIs(lower, lists, members, item, q);
        assert (item, q) in all ==> (item, q).1 in shown;
      }
      if OnlyRarity(lower, lists, members, item, r) {
        assert r in shown;
      }
    }
  }

  // ----- the loops -----

  method ClaimItems(items: seq<string>, members: set<string>, r: string, rarities: map<string, string>,
                    ambiguous: set<string>, ghost evidence: Evidence)
    returns (rarities': map<string, string>, ambiguous': set<string>)
    requires Settled(rarities, ambiguous, evidence)
    ensures Settled(rarities', ambiguous', evidence + ItemEvidence(items, members, r))
  {
    rarities', ambiguous' := rarities, ambiguous;
    var i := 0;
    assert evidence + ItemEvidence([], members, r) == evidence;
    while i < |items|
      invariant 0 <= i <= |items|
      invariant Settled(rarities', ambiguous', evidence + ItemEvidence(items[..i], members, r))
    {
      var item := items[i];
      ghost var before, old_r, old_a := evidence + ItemEvidence(items[..i], members, r), rarities', ambiguous';
      assert items[..i + 1] == items[..i] + [item];
      assert evidence + ItemEvidence(items[..i + 1], members, r) ==
             before + if item in members then {(item, r)} else {};
      if item in members && item !in ambiguous' {
        if item in rarities' && rarities'[item] != r {
          rarities' := rarities' - {item};
          ambiguous' := ambiguous' + {item};
        } else {
          rarities' := rarities'[item := r];
        }
      }
      if item in members {
        SettledOneMore(old_r, old_a, before, item, r, rarities', ambiguous');
      } else {
        assert before + {} == before;
      }
      i := i + 1;
    }
    assert items[..i] == items;
  }

  method ClaimChildren(lower: Lower, lists: Lists, members: set<string>, parent: string, rarities: map<string, string>,
                       ambiguous: set<string>, ghost evidence: Evidence)
    returns (rarities': map<string, string>, ambiguous': set<string>)
    requires Settled(rarities, ambiguous, evidence)
    ensures Settled(rarities', ambiguous',
                    evidence + ParentEvidence(lower, lists, members, parent, Entries(lists, parent)))
  {
    rarities', ambiguous' := rarities, ambiguous;
    var children := Entries(lists, parent);
    var i := 0;
    assert evidence + ParentEvidence(lower, lists, members, parent, []) == evidence;
    while i < |children|
      invariant 0 <= i <= |children|
      invariant Settled(rarities', ambiguous', evidence + ParentEvidence(lower, lists, members, parent, children[..i]))
    {
      var child := children[i];
      var r := NestedRarity(lower, parent, child);
      ghost var before := evidence + ParentEvidence(lower, lists, members, parent, children[..i]);
      assert children[..i + 1] == children[..i] + [child];
      assert evidence + ParentEvidence(lower, lists, members, parent, children[..i + 1]) ==
             before + ChildEvidence(lower, lists, members, parent, child);
      if r != "" {
        rarities', ambiguous' := ClaimItems(Entries(lists, child), members, r, rarities', ambiguous', before);
      } else {
        assert before + {} == before;
      }
      i := i + 1;
    }
    assert children[..i] == children;
  }

  /** The loot lists are walked in an unspecified order. */
  method RaritiesOf(lower: Lower, lists: Lists, members: set<string>) returns (rarities: map<string, string>)
    ensures AreRarities(lower, lists, members, rarities)
  {
    rarities := map[];
    var ambiguous := {};
    var todo := lists.Keys;
    ghost var done := {};
    assert AllEvidence(lower, lists, members, done) == {};
    while todo != {}
      invariant todo !! done && todo + done == lists.Keys
      invariant Settled(rarities, ambiguous, AllEvidence(lower, lists, members, done))
      decreases todo
    {
      var parent :| parent in todo;
      ghost var before := AllEvidence(lower, lists, members, done);
      assert AllEvidence(lower, lists, members, done + {parent}) ==
             before + ParentEvidence(lower, lists, members, parent, Entries(lists, parent));
      rarities, ambiguous := ClaimChildren(lower, lists, members, parent, rarities, ambiguous, before);
      todo, done := todo - {parent}, done + {parent};
    }
    SettledIsRarities(lower, lists, members, rarities, ambiguous);
  }

  function Members(items: seq<string>): set<string> {
    set item <- items
  }

  datatype Collection = Collection(items: seq<string>, rarities: map<string, string>)

  class Schema {
    const lower: Lower
    var lootLists: Lists
    var collections: map<string, Collection>

    /** The collections are walked in an unspecified order; each keeps its items. */
    method ApplyCollectionLootListRarities()
      modifies this`collections
      ensures collections.Keys == old(collections.Keys)
      ensures forall key <- collections ::
        && collections[key].items == old(collections)[key].items
        && AreRarities(lower, lootLists, Members(collections[key].items), collections[key].rarities)
    {
      var todo := collections.Keys;
      while todo != {}
        invariant todo <= collections.Keys == old(collections.Keys)
        invariant forall key <- collections :: collections[key].items == old(collections)[key].items
        invariant forall key <- collections | key !in todo ::
          AreRarities(lower, lootLists, Members(collections[key].items), collections[key].rarities)
        decreases todo
      {
        var key :| key in todo;
        var definition := collections[key];
        var rarities := RaritiesOf(lower, lootLists, Members(definition.items));
        collections := collections[key := definition.(rarities := rarities)];
        todo := todo - {key};
      }
    }
  }

  /** What the loops compute does not depend on the orders they take. */
  lemma RaritiesAreUnique(lower: Lower, lists: Lists, members: set<string>, a: map<string, string>,
                          b: map<string, string>)
    requires AreRarities(lower, lists, members, a) && AreRarities(lower, lists, members, b)
    ensures a == b
  {
    forall item | item in a ensures item in b && b[item] == a[item] {
      assert OnlyRarity(lower, lists, members, item, a[item]);
    }
    forall item | item in b ensures item in a {
      assert OnlyRarity(lower, lists, members, item, b[item]);
    }
  }
}
