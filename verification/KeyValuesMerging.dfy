/**
  What a block that is opened again adds up to: for every path of keys, which of the two bodies the
  node at its end comes from.
 */
module KeyValuesMerging {
  import opened Prelude
  import opened KeyValues

  /** The node at the end of a path of keys. */
  function At(o: Object, path: seq<bytes>): Option<Node>
    decreases |path|
  {
    if path == [] || path[0] !in o then None
    else if |path| == 1 then Some(o[path[0]])
    else At(o[path[0]].children, path[1..])
  }

  /** The path leads to a block with children in both. */
  predicate Shared(base: Object, next: Object, path: seq<bytes>) {
    var b, n := At(base, path), At(next, path);
    b.Some? && n.Some? && b.value.children != map[] && n.value.children != map[]
  }

  /** The path is shared at every step up to the n-th. */
  predicate SharedTo(base: Object, next: Object, path: seq<bytes>, n: nat)
    requires n <= |path|
  {
    forall i :: 0 < i <= n ==> Shared(base, next, path[..i])
  }

  lemma StepDown(base: Object, next: Object, path: seq<bytes>, n: nat)
    requires 0 < n <= |path| && SharedTo(base, next, path, n)
    ensures path[0] in base && path[0] in next
    ensures base[path[0]].children != map[] && next[path[0]].children != map[]
    ensures SharedTo(base[path[0]].children, next[path[0]].children, path[1..], n - 1)
  {
    assert Shared(base, next, path[..1]);
    forall i | 0 < i <= n - 1 ensures Shared(base[path[0]].children, next[path[0]].children, path[1..][..i]) {
      assert Shared(base, next, path[..i + 1]);
      assert path[..i + 1][1..] == path[1..][..i];
    }
  }

  /** Where a path is shared all the way, the two blocks are merged. */
  lemma {:induction false} MergedBlock(base: Object, next: Node, path: seq<bytes>)
    requires path != [] && SharedTo(base, next.children, path, |path| - 1) && Shared(base, next.children, path)
    ensures At(Merge(base, next), path) ==
            Some(Node([], Merge(At(base, path).value.children, At(next.children, path).value)))
    decreases |path|
  {
    var k := path[0];
    if |path| > 1 {
      StepDown(base, next.children, path, |path| - 1);
      MergedBlock(base[k].children, next.children[k], path[1..]);
    }
  }

  lemma UnsharedBelow(base: Object, next: Object, path: seq<bytes>, n: nat)
    requires 1 < n <= |path| && path[0] in base && path[0] in next && !Shared(base, next, path[..n])
    ensures !Shared(base[path[0]].children, next[path[0]].children, path[1..][..n - 1])
    ensures At(next, path[..n]) == At(next[path[0]].children, path[1..][..n - 1])
  {
    assert path[..n][1..] == path[1..][..n - 1];
  }

  /**
    Otherwise, at the first step where the path is not shared, whatever the later body has there takes
    the place of all that the earlier one has, and if it has nothing, the earlier one's stays.
   */
  lemma {:induction false} MergedLookup(base: Object, next: Node, path: seq<bytes>, n: nat)
    requires 0 < n <= |path| && SharedTo(base, next.children, path, n - 1)
    requires !Shared(base, next.children, path[..n])
    ensures At(Merge(base, next), path) ==
            if At(next.children, path[..n]).None? then At(base, path) else At(next.children, path)
    decreases |path|
  {
    var k := path[0];
    if n == 1 {
      assert path[..1] == [k];
    } else {
      StepDown(base, next.children, path, n - 1);
      UnsharedBelow(base, next.children, path, n);
      MergedLookup(base[k].children, next.children[k], path[1..], n - 1);
    }
  }

  /** Opening a block again with an empty body keeps what it had. */
  lemma EmptyBodyKeeps(out: Object, key: bytes)
    requires key in out && out[key].children != map[]
    ensures AddBlock(out, key, map[]) == out[key := Node([], out[key].children)]
  {
    assert Merge(out[key].children, Node([], map[])) == out[key].children;
  }

  /** But an empty block anywhere below, in blocks that are opened again, erases what was there. */
  lemma EmptyBlockErases(out: Object, key: bytes, child: Object, path: seq<bytes>)
    requires key in out && out[key].children != map[] && path != []
    requires SharedTo(out[key].children, child, path, |path| - 1) && At(child, path) == Some(Node([], map[]))
    ensures At(AddBlock(out, key, child), [key] + path) == Some(Node([], map[]))
  {
    assert path[..|path|] == path && ([key] + path)[1..] == path;
    MergedLookup(out[key].children, Node([], child), path, |path|);
  }

  /** The two treatments side by side: an empty body keeps its block's contents, but not an inner block's. */
  lemma EmptyBlockKeptOnlyAtTheTop(out: Object, key: bytes, inner: bytes)
    requires key in out && inner in out[key].children
    ensures AddBlock(out, key, map[])[key].children == out[key].children
    ensures AddBlock(out, key, map[inner := Node([], map[])])[key].children[inner] == Node([], map[])
  {
    EmptyBodyKeeps(out, key);
    EmptyBlockErases(out, key, map[inner := Node([], map[])], [inner]);
  }
}
