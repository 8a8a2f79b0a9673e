/**
  Searches of nested loot lists.  An entry that names another list stands for that list's entries,
  and lists may nest in cycles; a search marks the lists it has entered in a set that all its
  recursive calls share.
 */
module LootLists {
  import opened Graphs

  type Lists = map<string, seq<string>>

  /** The entries of a list; a missing list has none. */
  function Entries(lists: Lists, name: string): seq<string> {
    if name in lists then lists[name] else []
  }

  /** The lists nested in a list. */
  function Nested(lists: Lists): Successors<string> {
    name => set entry <- Entries(lists, name) | entry in lists
  }

  /** `after` adds lists to `before` that do not hold the target and whose nested lists are in `after`. */
  ghost predicate Searched(lists: Lists, target: string, before: set<string>, after: set<string>) {
    && before <= after
    && Closed(Nested(lists), after, before)
    && forall n | n in after && n !in before :: target !in Entries(lists, n)
  }

  method Search(lists: Lists, name: string, target: string, seen: Seen<string>) returns (found: bool)
    modifies seen
    ensures name in seen.names && old(seen.names) <= seen.names
    ensures !found ==> Searched(lists, target, old(seen.names), seen.names)
    ensures found ==> exists n :: Reachable(Nested(lists), name, n) && target in Entries(lists, n)
    decreases lists.Keys - seen.names
  {
    if name in seen.names {
      return false;
    }
    seen.names := seen.names + {name};
    var entries := Entries(lists, name);
    var i := 0;
    while i < |entries|
      invariant 0 <= i <= |entries|
      invariant old(seen.names) + {name} <= seen.names
      invariant Searched(lists, target, old(seen.names) + {name}, seen.names)
      invariant forall j :: 0 <= j < i ==> entries[j] != target && (entries[j] in lists ==> entries[j] in seen.names)
    {
      if entries[i] == target {
        ReachesItself(Nested(lists), name);
        return true;
      }
      if entries[i] in lists {
        var deeper := Search(lists, entries[i], target, seen);
        if deeper {
          ghost var n :| Reachable(Nested(lists), entries[i], n) && target in Entries(lists, n);
          ReachesFirst(Nested(lists), name, entries[i], n);
          return true;
        }
      }
      i := i + 1;
    }
    return false;
  }

  /** The search finds the target exactly when some list reachable from the start has it as an entry. */
  method LootListContains(lists: Lists, name: string, target: string) returns (found: bool)
    ensures found <==> exists n :: Reachable(Nested(lists), name, n) && target in Entries(lists, n)
  {
    var seen := new Seen<string>();
    found := Search(lists, name, target, seen);
    if !found {
      forall n | Reachable(Nested(lists), name, n) ensures target !in Entries(lists, n) {
        ClosedHasReachable(Nested(lists), seen.names, name, n);
      }
    }
  }

  /** A list nested in a list is one of its entries and a list itself. */
  predicate IsNested(lists: Lists, a: string, b: string) {
    a in lists && b in lists[a] && b in lists
  }

  /** From list to nested list. */
  ghost predicate Nesting(lists: Lists, p: seq<string>) {
    p != [] && forall i {:trigger p[i]} :: 0 < i < |p| ==> IsNested(lists, p[i - 1], p[i])
  }

  lemma NestedIff(lists: Lists, a: string, b: string)
    ensures IsNested(lists, a, b) <==> b in Nested(lists)(a)
  {}

  lemma NestingIff(lists: Lists, p: seq<string>)
    ensures Nesting(lists, p) <==> Path(Nested(lists), p)
  {
    forall i | 0 < i < |p| ensures IsNested(lists, p[i - 1], p[i]) <==> p[i] in Nested(lists)(p[i - 1]) {
      NestedIff(lists, p[i - 1], p[i]);
    }
  }

  /** What the search finds, as a path through the lists. */
  lemma FoundIff(lists: Lists, name: string, target: string)
    ensures (exists n :: Reachable(Nested(lists), name, n) && target in Entries(lists, n)) <==>
            exists p :: Nesting(lists, p) && p[0] == name && p[|p| - 1] in lists && target in lists[p[|p| - 1]]
  {
    if n :| Reachable(Nested(lists), name, n) && target in Entries(lists, n) {
      var p :| Path(Nested(lists), p) && p[0] == name && p[|p| - 1] == n;
      NestingIff(lists, p);
    }
    if p :| Nesting(lists, p) && p[0] == name && p[|p| - 1] in lists && target in lists[p[|p| - 1]] {
      NestingIff(lists, p);
      assert Reachable(Nested(lists), name, p[|p| - 1]);
    }
  }

  // ----- the contents of a container -----

  /** The keys of each block; a leaf has none. */
  type Blocks = map<string, set<string>>

  const SKIPPED := {"lootlist_job_templates", "additional_drop", "random_attributes"}

  function Keys(lists: Blocks, name: string): set<string> {
    if name in lists then lists[name] else {}
  }

  function Blocked(lists: Blocks): Successors<string> {
    name => set entry <- Keys(lists, name) | entry !in SKIPPED && Keys(lists, entry) != {}
  }

  predicate IsLeaf(lists: Blocks, name: string, entry: string) {
    entry in Keys(lists, name) && entry !in SKIPPED && Keys(lists, entry) == {}
  }

  ghost function Holders(lists: Blocks, names: set<string>, entry: string): set<string> {
    set n <- names | IsLeaf(lists, n, entry)
  }

  /** How many of the lists have the entry as a leaf. */
  ghost function Count(lists: Blocks, names: set<string>, entry: string): nat {
    |Holders(lists, names, entry)|
  }

  lemma CountUnion(lists: Blocks, a: set<string>, b: set<string>, entry: string)
    requires a !! b
    ensures Count(lists, a + b, entry) == Count(lists, a, entry) + Count(lists, b, entry)
  {
    assert Holders(lists, a + b, entry) == Holders(lists, a, entry) + Holders(lists, b, entry);
  }

  /** `out` has a leaf as often as `names` has lists that hold it. */
  ghost predicate Collected(lists: Blocks, names: set<string>, out: multiset<string>) {
    forall entry :: out[entry] == Count(lists, names, entry)
  }

  /** As above, and once more for each leaf of `name` that is no longer to do. */
  ghost predicate Partly(lists: Blocks, name: string, todo: set<string>, names: set<string>, out: multiset<string>) {
    forall entry ::
      out[entry] == Count(lists, names, entry) + if IsLeaf(lists, name, entry) && entry !in todo then 1 else 0
  }

  lemma PartlyLeaf(lists: Blocks, name: string, todo: set<string>, entry: string, names: set<string>, out: seq<string>)
    requires entry in todo && Partly(lists, name, todo, names, multiset(out))
    ensures IsLeaf(lists, name, entry) ==> Partly(lists, name, todo - {entry}, names, multiset(out + [entry]))
    ensures !IsLeaf(lists, name, entry) ==> Partly(lists, name, todo - {entry}, names, multiset(out))
  {}

  lemma PartlyMore(lists: Blocks, name: string, todo: set<string>, before: set<string>, names: set<string>,
                   after: set<string>, out: seq<string>, items: seq<string>)
    requires before <= names <= after
    requires Partly(lists, name, todo, names - before, multiset(out))
    requires Collected(lists, after - names, multiset(items))
    ensures Partly(lists, name, todo, after - before, multiset(out + items))
  {
    var a, b := names - before, after - names;
    assert a + b == after - before && multiset(out + items) == multiset(out) + multiset(items);
    forall entry
      ensures multiset(out + items)[entry] ==
              Count(lists, after - before, entry) + if IsLeaf(lists, name, entry) && entry !in todo then 1 else 0
    {
      CountUnion(lists, a, b, entry);
    }
  }

  lemma PartlyDone(lists: Blocks, name: string, names: set<string>, out: multiset<string>)
    requires name !in names && Partly(lists, name, {}, names, out)
    ensures Collected(lists, {name} + names, out)
  {
    forall entry ensures out[entry] == Count(lists, {name} + names, entry) {
      CountUnion(lists, {name}, names, entry);
      if IsLeaf(lists, name, entry) {
        assert Holders(lists, {name}, entry) == {name};
      } else {
        assert Holders(lists, {name}, entry) == {};
      }
    }
  }

  /** The names entered since `before` are reachable, and so closed but for what `name` has still to do. */
  ghost predicate Entered(next: Successors<string>, name: string, todo: set<string>, before: set<string>,
                          names: set<string>) {
    && name in before && before <= names
    && Closed(next, names, before)
    && (forall entry <- next(name) :: entry in todo || entry in names)
    && (forall n <- names - before :: Reachable(next, name, n))
  }

  lemma EnteredMore(next: Successors<string>, name: string, entry: string, todo: set<string>, before: set<string>,
                    names: set<string>, after: set<string>)
    requires Entered(next, name, todo, before, names) && entry in next(name)
    requires names <= after && entry in after && Closed(next, after, names)
    requires forall n <- after - names :: Reachable(next, entry, n)
    ensures Entered(next, name, todo - {entry}, before, after)
  {
    forall n <- after - before ensures Reachable(next, name, n) {
      if n !in names {
        ReachesFirst(next, name, entry, n);
      }
    }
  }

  /** What the loop over the keys of `name` has done, but for those still to do. */
  ghost predicate Progress(lists: Blocks, name: string, todo: set<string>, before: set<string>, names: set<string>,
                           out: seq<string>)
  {
    && Entered(Blocked(lists), name, todo, before, names)
    && Partly(lists, name, todo, names - before, multiset(out))
  }

  /** What entering `name` has done. */
  ghost predicate Resolved(lists: Blocks, name: string, before: set<string>, names: set<string>, out: seq<string>) {
    && name in names && before <= names
    && Closed(Blocked(lists), names, before)
    && (forall n <- names - before :: Reachable(Blocked(lists), name, n))
    && Collected(lists, names - before, multiset(out))
  }

  lemma Start(lists: Blocks, name: string, before: set<string>)
    ensures Progress(lists, name, Keys(lists, name), before + {name}, before + {name}, [])
  {}

  lemma SkipOne(lists: Blocks, name: string, todo: set<string>, before: set<string>, names: set<string>,
                out: seq<string>, entry: string)
    requires Progress(lists, name, todo, before, names, out) && entry in todo && entry in SKIPPED
    ensures Progress(lists, name, todo - {entry}, before, names, out)
  {}

  lemma AddLeaf(lists: Blocks, name: string, todo: set<string>, before: set<string>, names: set<string>,
                out: seq<string>, entry: string)
    requires Progress(lists, name, todo, before, names, out) && entry in todo && IsLeaf(lists, name, entry)
    ensures Progress(lists, name, todo - {entry}, before, names, out + [entry])
  {}

  lemma AddNested(lists: Blocks, name: string, todo: set<string>, before: set<string>, names: set<string>,
                  out: seq<string>, entry: string, after: set<string>, items: seq<string>)
    requires Progress(lists, name, todo, before, names, out) && entry in todo && entry in Blocked(lists)(name)
    requires Resolved(lists, entry, names, after, items)
    ensures Progress(lists, name, todo - {entry}, before, after, out + items)
  {
    PartlyLeaf(lists, name, todo, entry, names - before, out);
    PartlyMore(lists, name, todo - {entry}, before, names, after, out, items);
    EnteredMore(Blocked(lists), name, entry, todo, before, names, after);
  }

  lemma Finish(lists: Blocks, name: string, before: set<string>, names: set<string>, out: seq<string>)
    requires name !in before && Progress(lists, name, {}, before + {name}, names, out)
    ensures Resolved(lists, name, before, names, out)
  {
    ReachesItself(Blocked(lists), name);
    PartlyDone(lists, name, names - (before + {name}), multiset(out));
    assert names - before == {name} + (names - (before + {name}));
  }

  /** The keys of a block come in an unspecified order. */
  method Resolve(name: string, lists: Blocks, seen: Seen<string>) returns (out: seq<string>)
    modifies seen
    ensures Resolved(lists, name, old(seen.names), seen.names, out)
    decreases lists.Keys - seen.names
  {
    out := [];
    if name in seen.names {
      return;
    }
    ghost var before := seen.names + {name};
    seen.names := seen.names + {name};
    var todo := Keys(lists, name);
    Start(lists, name, old(seen.names));
    while todo != {}
      invariant todo <= Keys(lists, name) && before <= seen.names
      invariant Progress(lists, name, todo, before, seen.names, out)
      decreases todo
    {
      var entry :| entry in todo;
      if entry in SKIPPED {
        SkipOne(lists, name, todo, before, seen.names, out, entry);
      } else if Keys(lists, entry) != {} {
        ghost var names := seen.names;
        var items := Resolve(entry, lists, seen);
        AddNested(lists, name, todo, before, names, out, entry, seen.names, items);
        out := out + items;
      } else {
        AddLeaf(lists, name, todo, before, seen.names, out, entry);
        out := out + [entry];
      }
      todo := todo - {entry};
    }
    Finish(lists, name, old(seen.names), seen.names, out);
  }

  ghost predicate AllReached(lists: Blocks, name: string, reached: set<string>) {
    forall n :: n in reached <==> Reachable(Blocked(lists), name, n)
  }

  /** The three keys that are not contents, and what is a leaf and what a nested list among the others. */
  lemma LeavesAre(lists: Blocks, name: string, entry: string)
    ensures var held := name in lists && entry in lists[name];
      var content := held && entry !in {"lootlist_job_templates", "additional_drop", "random_attributes"};
      var empty := entry !in lists || lists[entry] == {};
      && (IsLeaf(lists, name, entry) <==> content && empty)
      && (entry in Blocked(lists)(name) <==> content && !empty)
  {}

  /**
    A container's contents hold each leaf once for every list, reachable from the container's, that
    has it, whatever the order of the keys and however the lists nest.
   */
  method ResolveTF2LootList(name: string, lists: Blocks) returns (out: seq<string>)
    ensures exists reached :: AllReached(lists, name, reached) && Collected(lists, reached, multiset(out))
  {
    var seen := new Seen<string>();
    out := Resolve(name, lists, seen);
    forall n | Reachable(Blocked(lists), name, n) ensures n in seen.names {
      ClosedHasReachable(Blocked(lists), seen.names, name, n);
    }
    assert seen.names - {} == seen.names;
    assert AllReached(lists, name, seen.names);
  }
}
