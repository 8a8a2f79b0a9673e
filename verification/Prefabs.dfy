/**
  Prefab inheritance.  An object names its prefabs, separated by white space, under the key
  `prefab`, and each of those may name more; the graph may have diamonds and cycles.  One walk merges
  the objects, another lists the names; both share a set of the names already taken.

  `split` stands for strings.Fields.
 */
module Prefabs {
  import opened Prelude
  import opened Graphs
  import opened KeyValues

  const PREFAB: bytes := [112, 114, 101, 102, 97, 98]

  type Split = bytes -> seq<bytes>

  function ObjectOf(prefabs: Object, name: bytes): Object {
    if name in prefabs then prefabs[name].children else map[]
  }

  /** The names under the key `prefab`; an object without the key has none. */
  function Names(split: Split, base: Object): seq<bytes> {
    if PREFAB in base then split(base[PREFAB].value) else []
  }

  /** Adds the keys that are missing. */
  function Inherit<K, V>(base: map<K, V>, more: map<K, V>): map<K, V> {
    map k | k in base.Keys + more.Keys :: if k in base then base[k] else more[k]
  }

  // ----- the two walks -----

  /** Merges the named prefabs into `out`, skipping the names in `seen`; also returns all names seen. */
  function MergeNames(split: Split, names: seq<bytes>, prefabs: Object, out: Object, seen: set<bytes>)
    : (r: (Object, set<bytes>))
    ensures seen <= r.1
    decreases prefabs.Keys - seen, |names|
  {
    if names == [] then (out, seen)
    else if names[0] in seen then MergeNames(split, names[1..], prefabs, out, seen)
    else
      var parent := ObjectOf(prefabs, names[0]);
      if parent == map[] then MergeNames(split, names[1..], prefabs, out, seen + {names[0]})
      else
        var (merged, seen') := MergeNames(split, Names(split, parent), prefabs, parent, seen + {names[0]});
        MergeNames(split, names[1..], prefabs, Inherit(out, merged), seen')
  }

  /** Lists the named prefabs and theirs, depth first, skipping the names in `seen`. */
  function ChainNames(split: Split, names: seq<bytes>, prefabs: Object, seen: set<bytes>)
    : (r: (seq<bytes>, set<bytes>))
    ensures seen <= r.1
    decreases prefabs.Keys - seen, |names|
  {
    if names == [] then ([], seen)
    else if names[0] in seen then ChainNames(split, names[1..], prefabs, seen)
    else
      var parent := ObjectOf(prefabs, names[0]);
      var (deeper, seen') :=
        if parent == map[] then ([], seen + {names[0]})
        else ChainNames(split, Names(split, parent), prefabs, seen + {names[0]});
      Prepend([names[0]] + deeper, ChainNames(split, names[1..], prefabs, seen'))
  }

  function Prepend(front: seq<bytes>, r: (seq<bytes>, set<bytes>)): (seq<bytes>, set<bytes>) {
    (front + r.0, r.1)
  }

  /** One name of a chain, after the names in `out`. */
  lemma ChainStep(split: Split, names: seq<bytes>, prefabs: Object, seen: set<bytes>, out: seq<bytes>,
                  deeper: seq<bytes>, seen': set<bytes>)
    requires names != [] && names[0] !in seen
    requires (deeper, seen') == ChainNames(split, Names(split, ObjectOf(prefabs, names[0])), prefabs, seen + {names[0]})
    ensures Prepend(out, ChainNames(split, names, prefabs, seen)) ==
            Prepend(out + [names[0]] + deeper, ChainNames(split, names[1..], prefabs, seen'))
  {
    var rest := ChainNames(split, names[1..], prefabs, seen').0;
    assert out + ([names[0]] + deeper + rest) == out + [names[0]] + deeper + rest;
  }

  function Merged(split: Split, base: Object, prefabs: Object): Object {
    MergeNames(split, Names(split, base), prefabs, base, {}).0
  }

  function Chain(split: Split, base: Object, prefabs: Object): seq<bytes> {
    ChainNames(split, Names(split, base), prefabs, {}).0
  }

  // ----- the walks as the program makes them -----

  /** The keys of a map come in an unspecified order. */
  method CopyMissing(base: Object, more: Object) returns (out: Object)
    ensures out == Inherit(base, more)
  {
    out := base;
    var todo := more.Keys;
    while todo != {}
      invariant todo <= more.Keys
      invariant out == base + map k | k in more && k !in base && k !in todo :: more[k]
      decreases todo
    {
      var k :| k in todo;
      if k !in out {
        out := out[k := more[k]];
      }
      todo := todo - {k};
    }
  }

  method MergePrefab(split: Split, base: Object, prefabs: Object, seen: Seen<bytes>) returns (out: Object)
    modifies seen
    ensures (out, seen.names) == MergeNames(split, Names(split, base), prefabs, base, old(seen.names))
    decreases prefabs.Keys - seen.names
  {
    out := CopyMissing(map[], base);
    assert out == base;
    var names := Names(split, base);
    var i := 0;
    while i < |names|
      invariant 0 <= i <= |names| && old(seen.names) <= seen.names
      invariant MergeNames(split, names, prefabs, base, old(seen.names)) ==
                MergeNames(split, names[i..], prefabs, out, seen.names)
    {
      var name := names[i];
      assert names[i..][1..] == names[i + 1..];
      i := i + 1;
      if name in seen.names {
        continue;
      }
      seen.names := seen.names + {name};
      var parent := ObjectOf(prefabs, name);
      if parent == map[] {
        continue;
      }
      var merged := MergePrefab(split, parent, prefabs, seen);
      out := CopyMissing(out, merged);
    }
  }

  method CollectPrefabChain(split: Split, base: Object, prefabs: Object, seen: Seen<bytes>) returns (out: seq<bytes>)
    modifies seen
    ensures (out, seen.names) == ChainNames(split, Names(split, base), prefabs, old(seen.names))
    decreases prefabs.Keys - seen.names, if base == map[] then 0 else 1
  {
    out := [];
    var names := Names(split, base);
    ghost var all := ChainNames(split, names, prefabs, seen.names);
    assert [] + all.0 == all.0;
    var i := 0;
    while i < |names|
      invariant 0 <= i <= |names| && old(seen.names) <= seen.names
      invariant all == Prepend(out, ChainNames(split, names[i..], prefabs, seen.names))
    {
      var name := names[i];
      assert names[i..][1..] == names[i + 1..];
      i := i + 1;
      if name in seen.names {
        continue;
      }
      ghost var names' := seen.names;
      seen.names := seen.names + {name};
      var deeper := CollectPrefabChain(split, ObjectOf(prefabs, name), prefabs, seen);
      ChainStep(split, names[i - 1..], prefabs, names', out, deeper, seen.names);
      out := out + [name];
      out := out + deeper;
    }
    assert out + [] == out;
  }

  // ----- what is merged -----

  /** The objects of a chain merged from the front: the first prefab that has a key gives its value. */
  function FirstOf(prefabs: Object, chain: seq<bytes>): Object {
    if chain == [] then map[] else Inherit(ObjectOf(prefabs, chain[0]), FirstOf(prefabs, chain[1..]))
  }

  lemma InheritTwice<K, V>(a: map<K, V>, b: map<K, V>, c: map<K, V>)
    ensures Inherit(Inherit(a, b), c) == Inherit(a, Inherit(b, c))
    ensures Inherit(a, map[]) == a == Inherit(map[], a)
  {}

  lemma {:induction false} FirstOfConcat(prefabs: Object, a: seq<bytes>, b: seq<bytes>)
    ensures FirstOf(prefabs, a + b) == Inherit(FirstOf(prefabs, a), FirstOf(prefabs, b))
  {
    if a == [] {
      assert a + b == b;
      InheritTwice(FirstOf(prefabs, b), map[], map[]);
    } else {
      assert (a + b)[0] == a[0] && (a + b)[1..] == a[1..] + b;
      FirstOfConcat(prefabs, a[1..], b);
      InheritTwice(ObjectOf(prefabs, a[0]), FirstOf(prefabs, a[1..]), FirstOf(prefabs, b));
    }
  }

  lemma {:induction false} FirstOfLookup(prefabs: Object, chain: seq<bytes>, key: bytes, i: nat)
    requires i <= |chain| && forall j :: 0 <= j < i ==> key !in ObjectOf(prefabs, chain[j])
    ensures i == |chain| ==> key !in FirstOf(prefabs, chain)
    ensures i < |chain| && key in ObjectOf(prefabs, chain[i]) ==>
      key in FirstOf(prefabs, chain) && FirstOf(prefabs, chain)[key] == ObjectOf(prefabs, chain[i])[key]
  {
    if i == 0 {
    } else {
      FirstOfLookup(prefabs, chain[1..], key, i - 1);
    }
  }

  /** Both walks see the same names, and the merge takes each key from the first prefab of the chain that has it. */
  lemma {:induction false} WalksAgree(split: Split, names: seq<bytes>, prefabs: Object, out: Object, seen: set<bytes>)
    ensures MergeNames(split, names, prefabs, out, seen).1 == ChainNames(split, names, prefabs, seen).1
    ensures MergeNames(split, names, prefabs, out, seen).0 ==
            Inherit(out, FirstOf(prefabs, ChainNames(split, names, prefabs, seen).0))
    decreases prefabs.Keys - seen, |names|
  {
    if names == [] {
      InheritTwice(out, map[], map[]);
    } else if names[0] in seen {
      WalksAgree(split, names[1..], prefabs, out, seen);
    } else {
      var parent, seen1 := ObjectOf(prefabs, names[0]), seen + {names[0]};
      var merged, deeper, seen2 := map[], [], seen1;
      if parent != map[] {
        WalksAgree(split, Names(split, parent), prefabs, parent, seen1);
        merged := MergeNames(split, Names(split, parent), prefabs, parent, seen1).0;
        deeper := ChainNames(split, Names(split, parent), prefabs, seen1).0;
        seen2 := ChainNames(split, Names(split, parent), prefabs, seen1).1;
      }
      WalksAgree(split, names[1..], prefabs, Inherit(out, merged), seen2);
      InheritStep(prefabs, out, names[0], deeper, ChainNames(split, names[1..], prefabs, seen2).0);
      InheritTwice(out, map[], map[]);
      InheritTwice(parent, map[], map[]);
    }
  }

  lemma InheritStep(prefabs: Object, out: Object, name: bytes, deeper: seq<bytes>, rest: seq<bytes>)
    ensures var merged := Inherit(ObjectOf(prefabs, name), FirstOf(prefabs, deeper));
      Inherit(out, FirstOf(prefabs, [name] + deeper + rest)) == Inherit(Inherit(out, merged), FirstOf(prefabs, rest))
  {
    FirstOfConcat(prefabs, [name] + deeper, rest);
    assert ([name] + deeper)[0] == name && ([name] + deeper)[1..] == deeper;
    InheritTwice(out, FirstOf(prefabs, [name] + deeper), FirstOf(prefabs, rest));
  }

  /**
    A merged object has a key's own value, or else the value in the first prefab of the object's
    chain that has the key, for every graph of prefabs.
   */
  lemma MergedLookup(split: Split, base: Object, prefabs: Object, key: bytes)
    ensures var chain := Chain(split, base, prefabs);
      var merged := Merged(split, base, prefabs);
      && (key in merged <==> key in base || exists i :: 0 <= i < |chain| && key in ObjectOf(prefabs, chain[i]))
      && (key in base ==> merged[key] == base[key])
      && (forall i | 0 <= i < |chain| && key !in base && key in ObjectOf(prefabs, chain[i]) ::
            (forall j :: 0 <= j < i ==> key !in ObjectOf(prefabs, chain[j])) ==>
            merged[key] == ObjectOf(prefabs, chain[i])[key])
  {
    var chain := Chain(split, base, prefabs);
    WalksAgree(split, Names(split, base), prefabs, base, {});
    forall i | 0 <= i <= |chain| && forall j :: 0 <= j < i ==> key !in ObjectOf(prefabs, chain[j])
      ensures i == |chain| ==> key !in FirstOf(prefabs, chain)
      ensures i < |chain| && key in ObjectOf(prefabs, chain[i]) ==>
        key in FirstOf(prefabs, chain) && FirstOf(prefabs, chain)[key] == ObjectOf(prefabs, chain[i])[key]
    {
      FirstOfLookup(prefabs, chain, key, i);
    }
    FirstOfHas(prefabs, chain, key);
  }

  lemma {:induction false} FirstOfHas(prefabs: Object, chain: seq<bytes>, key: bytes)
    ensures key in FirstOf(prefabs, chain) <==> exists i :: 0 <= i < |chain| && key in ObjectOf(prefabs, chain[i])
  {
    if chain == [] {
    } else {
      FirstOfHas(prefabs, chain[1..], key);
      forall i | 0 <= i < |chain| && key in ObjectOf(prefabs, chain[i]) ensures key in FirstOf(prefabs, chain) {
        if i > 0 {
          assert chain[1..][i - 1] == chain[i];
        }
      }
    }
  }

  // ----- which prefabs are in a chain -----

  /** The prefabs that a prefab names. */
  function Next(split: Split, prefabs: Object): Successors<bytes> {
    name => set n <- Names(split, ObjectOf(prefabs, name))
  }

  /** `chain` lists what was added to `before`, once each, and all of it is reachable from `names`. */
  ghost predicate Lists(split: Split, prefabs: Object, names: seq<bytes>, before: set<bytes>, after: set<bytes>,
                        chain: seq<bytes>)
  {
    && after == before + (set n <- chain)
    && (forall n <- chain :: n !in before && exists m <- names :: Reachable(Next(split, prefabs), m, n))
    && (forall i, j :: 0 <= i < j < |chain| ==> chain[i] != chain[j])
    && (forall n <- names :: n in after)
    && Closed(Next(split, prefabs), after, before)
  }

  lemma {:induction false} ChainLists(split: Split, names: seq<bytes>, prefabs: Object, seen: set<bytes>)
    ensures var listed := ChainNames(split, names, prefabs, seen);
      var chain, after := listed.0, listed.1;
      Lists(split, prefabs, names, seen, after, chain)
    decreases prefabs.Keys - seen, |names|
  {
    if names == [] {
    } else if names[0] in seen {
      ChainLists(split, names[1..], prefabs, seen);
    } else {
      var parent, seen1 := ObjectOf(prefabs, names[0]), seen + {names[0]};
      var deeper, seen2 := [], seen1;
      if parent != map[] {
        ChainLists(split, Names(split, parent), prefabs, seen1);
        deeper := ChainNames(split, Names(split, parent), prefabs, seen1).0;
        seen2 := ChainNames(split, Names(split, parent), prefabs, seen1).1;
      }
      ListsNested(split, prefabs, names[0], seen, seen2, deeper);
      ChainLists(split, names[1..], prefabs, seen2);
      var (rest, seen3) := ChainNames(split, names[1..], prefabs, seen2);
      ListsBoth(split, prefabs, names, seen, seen2, seen3, [names[0]] + deeper, rest);
    }
  }

  lemma ListsNested(split: Split, prefabs: Object, name: bytes, seen: set<bytes>, after: set<bytes>, deeper: seq<bytes>)
    requires name !in seen
    requires Lists(split, prefabs, Names(split, ObjectOf(prefabs, name)), seen + {name}, after, deeper)
    ensures Lists(split, prefabs, [name], seen, after, [name] + deeper)
  {
    var next, chain := Next(split, prefabs), [name] + deeper;
    ReachesItself(next, name);
    assert name in [name];
    forall n <- deeper ensures Reachable(next, name, n) {
      var m :| m in Names(split, ObjectOf(prefabs, name)) && Reachable(next, m, n);
      ReachesFirst(next, name, m, n);
    }
    assert forall n <- chain :: n == name || n in deeper;
  }

  lemma ListsBoth(split: Split, prefabs: Object, names: seq<bytes>, seen: set<bytes>, middle: set<bytes>,
                  after: set<bytes>, a: seq<bytes>, b: seq<bytes>)
    requires names != []
    requires Lists(split, prefabs, [names[0]], seen, middle, a) && Lists(split, prefabs, names[1..], middle, after, b)
    ensures Lists(split, prefabs, names, seen, after, a + b)
  {
    assert forall n <- a + b :: n in a || n in b;
    assert names == [names[0]] + names[1..];
    forall i, j | 0 <= i < j < |a + b| ensures (a + b)[i] != (a + b)[j] {
      if j < |a| {
        assert a[i] != a[j];
      } else if i < |a| {
        assert a[i] in a && b[j - |a|] in b;
      } else {
        assert b[i - |a|] != b[j - |a|];
      }
    }
  }

  /** From nothing seen, the chain of some names has exactly what they reach, each once. */
  lemma NamesReach(split: Split, names: seq<bytes>, prefabs: Object)
    ensures var chain, after := ChainNames(split, names, prefabs, {}).0, ChainNames(split, names, prefabs, {}).1;
      && after == (set n <- chain)
      && (forall i, j :: 0 <= i < j < |chain| ==> chain[i] != chain[j])
      && forall n :: n in chain <==> exists m <- names :: Reachable(Next(split, prefabs), m, n)
  {
    var (chain, after) := ChainNames(split, names, prefabs, {});
    ChainLists(split, names, prefabs, {});
    forall m, n | m in names && Reachable(Next(split, prefabs), m, n) ensures n in chain {
      ClosedHasReachable(Next(split, prefabs), after, m, n);
    }
  }

  /** A chain lists the prefabs reachable from the object, each once. */
  lemma ChainIsReachable(split: Split, base: Object, prefabs: Object)
    ensures var chain := Chain(split, base, prefabs);
      && (forall i, j :: 0 <= i < j < |chain| ==> chain[i] != chain[j])
      && forall n :: n in chain <==> exists m <- Names(split, base) :: Reachable(Next(split, prefabs), m, n)
  {
    NamesReach(split, Names(split, base), prefabs);
  }
}
