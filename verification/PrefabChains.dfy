/**
  Prefab chains against the text of the schema: which prefabs an object has, in which order they come,
  and which one gives a key its value.
 */
module PrefabChains {
  import opened Prelude
  import opened Graphs
  import opened KeyValues
  import opened Prefabs

  /** The object's text under the key "prefab" has the name as one of its fields. */
  predicate Mentions(split: Split, o: Object, name: bytes) {
    [0x70, 0x72, 0x65, 0x66, 0x61, 0x62] in o && name in split(o[[0x70, 0x72, 0x65, 0x66, 0x61, 0x62]].value)
  }

  predicate Follows(split: Split, prefabs: Object, m: bytes, n: bytes) {
    m in prefabs && Mentions(split, prefabs[m].children, n)
  }

  /** Each prefab on the path is mentioned by the one before it. */
  ghost predicate Line(split: Split, prefabs: Object, path: seq<bytes>) {
    path != [] && forall i {:trigger path[i]} :: 0 < i < |path| ==> Follows(split, prefabs, path[i - 1], path[i])
  }

  ghost predicate Reached(split: Split, prefabs: Object, starts: seq<bytes>, name: bytes) {
    exists path :: Line(split, prefabs, path) && path[0] in starts && path[|path| - 1] == name
  }

  lemma FollowsIff(split: Split, prefabs: Object, m: bytes, n: bytes)
    ensures Follows(split, prefabs, m, n) <==> n in Prefabs.Next(split, prefabs)(m)
    ensures Mentions(split, if m in prefabs then prefabs[m].children else map[], n) <==>
            n in Names(split, ObjectOf(prefabs, m))
  {}

  lemma LineIsPath(split: Split, prefabs: Object, path: seq<bytes>)
    ensures Line(split, prefabs, path) <==> Path(Prefabs.Next(split, prefabs), path)
  {
    forall i | 0 < i < |path|
      ensures Follows(split, prefabs, path[i - 1], path[i]) <==> path[i] in Prefabs.Next(split, prefabs)(path[i - 1])
    {
      FollowsIff(split, prefabs, path[i - 1], path[i]);
    }
  }

  lemma ReachedIff(split: Split, prefabs: Object, starts: seq<bytes>, name: bytes)
    ensures Reached(split, prefabs, starts, name) <==>
            exists m <- starts :: Reachable(Prefabs.Next(split, prefabs), m, name)
  {
    if path :| Line(split, prefabs, path) && path[0] in starts && path[|path| - 1] == name {
      LineIsPath(split, prefabs, path);
      assert Reachable(Prefabs.Next(split, prefabs), path[0], name);
    }
    if m :| m in starts && Reachable(Prefabs.Next(split, prefabs), m, name) {
      var path :| Path(Prefabs.Next(split, prefabs), path) && path[0] == m && path[|path| - 1] == name;
      LineIsPath(split, prefabs, path);
    }
  }

  /** A chain lists, once each, exactly the prefabs on the lines that start at a name that the object mentions. */
  lemma ChainIs(split: Split, base: Object, prefabs: Object)
    ensures var chain := Chain(split, base, prefabs);
      && (forall i, j :: 0 <= i < j < |chain| ==> chain[i] != chain[j])
      && forall n :: n in chain <==>
           exists path :: Line(split, prefabs, path) && Mentions(split, base, path[0]) && path[|path| - 1] == n
  {
    ChainIsReachable(split, base, prefabs);
    var names := Names(split, base);
    forall n ensures n in Chain(split, base, prefabs) <==>
      exists path :: Line(split, prefabs, path) && Mentions(split, base, path[0]) && path[|path| - 1] == n
    {
      ReachedIff(split, prefabs, names, n);
      assert forall m :: m in names <==> Mentions(split, base, m);
    }
  }

  // ----- the order -----

  lemma {:induction false} ChainConcat(split: Split, a: seq<bytes>, b: seq<bytes>, prefabs: Object, seen: set<bytes>)
    ensures var first := ChainNames(split, a, prefabs, seen);
      ChainNames(split, a + b, prefabs, seen) == Prefabs.Prepend(first.0, ChainNames(split, b, prefabs, first.1))
    decreases |a|
  {
    if a == [] {
      assert a + b == b;
      assert [] + ChainNames(split, b, prefabs, seen).0 == ChainNames(split, b, prefabs, seen).0;
    } else {
      assert (a + b)[0] == a[0] && (a + b)[1..] == a[1..] + b;
      if a[0] in seen {
        ChainConcat(split, a[1..], b, prefabs, seen);
      } else {
        var parent := ObjectOf(prefabs, a[0]);
        var deeper := if parent == map[] then ([], seen + {a[0]})
                      else ChainNames(split, Names(split, parent), prefabs, seen + {a[0]});
        ChainConcat(split, a[1..], b, prefabs, deeper.1);
        var rest := ChainNames(split, a[1..], prefabs, deeper.1);
        Associate([a[0]] + deeper.0, rest.0, ChainNames(split, b, prefabs, rest.1).0);
      }
    }
  }

  /** A chain from nothing seen has exactly what its names reach. */
  lemma ChainReaches(split: Split, names: seq<bytes>, prefabs: Object, n: bytes)
    ensures var first := ChainNames(split, names, prefabs, {});
      first.1 == (set m <- first.0) && (n in first.0 <==> Reached(split, prefabs, names, n))
  {
    NamesReach(split, names, prefabs);
    ReachedIff(split, prefabs, names, n);
  }

  /** The chain of the names from the j-th on follows that of the names before, which has what those reach. */
  lemma ChainCut(split: Split, base: Object, prefabs: Object, j: nat) returns (front: seq<bytes>, back: seq<bytes>)
    requires j <= |Names(split, base)|
    ensures Chain(split, base, prefabs) == front + back
    ensures forall n :: n in front <==> Reached(split, prefabs, Names(split, base)[..j], n)
    ensures back == ChainNames(split, Names(split, base)[j..], prefabs, set n <- front).0
  {
    var names := Names(split, base);
    var first := ChainNames(split, names[..j], prefabs, {});
    assert names == names[..j] + names[j..];
    ChainConcat(split, names[..j], names[j..], prefabs, {});
    front, back := first.0, ChainNames(split, names[j..], prefabs, first.1).0;
    ChainReaches(split, names[..j], prefabs, []);
    forall n ensures n in front <==> Reached(split, prefabs, names[..j], n) {
      ChainReaches(split, names[..j], prefabs, n);
    }
  }

  /**
    What is reached from the first names in the object's text comes before everything that is not: of two
    of its names, the earlier one first, unless the later one is reached from it or from one before.
   */
  lemma ChainOrder(split: Split, base: Object, prefabs: Object, names: seq<bytes>, j: nat, a: nat, b: nat)
    requires [0x70, 0x72, 0x65, 0x66, 0x61, 0x62] in base
    requires names == split(base[[0x70, 0x72, 0x65, 0x66, 0x61, 0x62]].value) && j <= |names|
    requires var chain := Chain(split, base, prefabs);
      && a < |chain| && b < |chain|
      && Reached(split, prefabs, names[..j], chain[a]) && !Reached(split, prefabs, names[..j], chain[b])
    ensures a < b
  {
    var chain := Chain(split, base, prefabs);
    var front, back := ChainCut(split, base, prefabs, j);
    ChainIsReachable(split, base, prefabs);
    var k :| 0 <= k < |front| && front[k] == chain[a];
    assert chain[k] == chain[a];
    forall n | 0 <= n < |front| ensures chain[n] in front {
      assert chain[n] == front[n];
    }
  }

  /** The b-th of the chain is one of the names, or follows one before it. */
  ghost predicate HasParent(split: Split, names: seq<bytes>, prefabs: Object, chain: seq<bytes>, b: nat) {
    b < |chain| &&
    (chain[b] in names || exists a :: 0 <= a < b && chain[b] in Names(split, ObjectOf(prefabs, chain[a])))
  }

  lemma ParentInFront(split: Split, name: bytes, prefabs: Object, deeper: seq<bytes>, b: nat)
    requires HasParent(split, Names(split, ObjectOf(prefabs, name)), prefabs, deeper, b)
    ensures HasParent(split, [name], prefabs, [name] + deeper, b + 1)
  {
    var chain := [name] + deeper;
    assert chain[b + 1] == deeper[b] && chain[0] == name;
    if deeper[b] !in Names(split, ObjectOf(prefabs, name)) {
      var a :| 0 <= a < b && deeper[b] in Names(split, ObjectOf(prefabs, deeper[a]));
      assert chain[a + 1] == deeper[a];
    }
  }

  lemma ParentInside(split: Split, names: seq<bytes>, more: seq<bytes>, prefabs: Object, front: seq<bytes>,
                     chain: seq<bytes>, back: seq<bytes>, b: nat)
    requires HasParent(split, names, prefabs, chain, b) && forall n <- names :: n in more
    ensures HasParent(split, more, prefabs, front + chain + back, |front| + b)
  {
    var all := front + chain + back;
    assert all[|front| + b] == chain[b];
    if chain[b] !in names {
      var a :| 0 <= a < b && chain[b] in Names(split, ObjectOf(prefabs, chain[a]));
      assert all[|front| + a] == chain[a];
    }
  }

  /** What one name of a chain adds after itself, and the names then seen. */
  function Below(split: Split, name: bytes, prefabs: Object, seen: set<bytes>): (seq<bytes>, set<bytes>) {
    var parent := ObjectOf(prefabs, name);
    if parent == map[] then ([], seen + {name})
    else ChainNames(split, Names(split, parent), prefabs, seen + {name})
  }

  lemma ChainUnfolds(split: Split, names: seq<bytes>, prefabs: Object, seen: set<bytes>)
    requires names != [] && names[0] !in seen
    ensures var deeper := Below(split, names[0], prefabs, seen);
      ChainNames(split, names, prefabs, seen).0 ==
      [names[0]] + deeper.0 + ChainNames(split, names[1..], prefabs, deeper.1).0
  {}

  lemma {:induction false} ParentBefore(split: Split, names: seq<bytes>, prefabs: Object, seen: set<bytes>, b: nat)
    requires b < |ChainNames(split, names, prefabs, seen).0|
    ensures HasParent(split, names, prefabs, ChainNames(split, names, prefabs, seen).0, b)
    decreases prefabs.Keys - seen, |names|
  {
    if names[0] in seen {
      ParentBefore(split, names[1..], prefabs, seen, b);
    } else {
      var deeper := Below(split, names[0], prefabs, seen);
      var first, rest := [names[0]] + deeper.0, ChainNames(split, names[1..], prefabs, deeper.1).0;
      ChainUnfolds(split, names, prefabs, seen);
      if 0 < b < |first| {
        ParentBefore(split, Names(split, ObjectOf(prefabs, names[0])), prefabs, seen + {names[0]}, b - 1);
        ParentInFront(split, names[0], prefabs, deeper.0, b - 1);
        ParentInside(split, [names[0]], names, prefabs, [], first, rest, b);
        assert [] + first == first;
      } else if |first| <= b {
        ParentBefore(split, names[1..], prefabs, deeper.1, b - |first|);
        ParentInside(split, names[1..], names, prefabs, first, rest, [], b - |first|);
        assert first + rest + [] == first + rest;
      }
    }
  }

  /** A prefab that the object does not mention itself comes after one that mentions it. */
  lemma MentionedBefore(split: Split, base: Object, prefabs: Object, b: nat)
    requires b < |Chain(split, base, prefabs)|
    ensures var chain := Chain(split, base, prefabs);
      || Mentions(split, base, chain[b])
      || exists a :: 0 <= a < b && Follows(split, prefabs, chain[a], chain[b])
  {
    var chain := Chain(split, base, prefabs);
    ParentBefore(split, Names(split, base), prefabs, {}, b);
    if a :| 0 <= a < b && chain[b] in Names(split, ObjectOf(prefabs, chain[a])) {
      FollowsIff(split, prefabs, chain[a], chain[b]);
    }
  }

  // ----- values -----

  /**
    A key that the object lacks takes its value from the earliest of the names in its text that has the
    key, if neither the names before that one nor what they reach have it, and do not reach it.
   */
  lemma EarlierNameGives(split: Split, base: Object, prefabs: Object, names: seq<bytes>, i: nat, key: bytes)
    requires [0x70, 0x72, 0x65, 0x66, 0x61, 0x62] in base
    requires names == split(base[[0x70, 0x72, 0x65, 0x66, 0x61, 0x62]].value) && i < |names|
    requires key !in base && names[i] in prefabs && key in prefabs[names[i]].children
    requires !Reached(split, prefabs, names[..i], names[i])
    requires forall n | n in prefabs && Reached(split, prefabs, names[..i], n) :: key !in prefabs[n].children
    ensures var merged := Merged(split, base, prefabs);
      key in merged && merged[key] == prefabs[names[i]].children[key]
  {
    var front, back := ChainCut(split, base, prefabs, i);
    assert names[i..][0] == names[i];
    assert back[0] == names[i];
    var chain := Chain(split, base, prefabs);
    assert chain[|front|] == names[i];
    forall j | 0 <= j < |front| ensures key !in ObjectOf(prefabs, chain[j]) {
      assert chain[j] in front;
    }
    MergedLookup(split, base, prefabs, key);
  }
}
