/**
  What the reader of binary KeyValues makes of a list of items: it builds a tree exactly if the items
  show that tree, in any order of the values, any spelling of the keys and any numbers of their width.
 */
module StoreKVTrees {
  import opened Prelude
  import opened StoreKV
  import opened StoreKVPrinting
  import LE = LittleEndian

  // ----- what items show -----

  function ValueOf(item: Item): Value
    requires !item.Block?
  {
    match item
    case TextItem(_, text) => Text(text)
    case WordItem(kind, _, n) => if kind == 3 then Float(n) else Uint(n)
  }

  /** The blocks among the items, in their order. */
  function Blocks(items: seq<Item>): (blocks: seq<Item>)
    ensures forall b <- blocks :: b.Block? && b in items
  {
    if items == [] then []
    else (if items[0].Block? then [items[0]] else []) + Blocks(items[1..])
  }

  predicate Sets(item: Item, key: bytes, lower: bytes -> bytes) {
    !item.Block? && lower(item.key) == key
  }

  /** The last item that sets a key. */
  predicate LastSet(items: seq<Item>, key: bytes, lower: bytes -> bytes, i: nat) {
    i < |items| && Sets(items[i], key, lower) && forall j :: i < j < |items| ==> !Sets(items[j], key, lower)
  }

  /** Every value is that of the last item that sets its key, and no other key is set. */
  ghost predicate ShowsValues(items: seq<Item>, values: map<bytes, Value>, lower: bytes -> bytes) {
    && (forall i :: 0 <= i < |items| && !items[i].Block? ==> lower(items[i].key) in values)
    && (forall k <- values :: exists i: nat :: LastSet(items, k, lower, i) && values[k] == ValueOf(items[i]))
  }

  /** And the children are shown by the blocks, in their order. */
  ghost predicate Shows(items: seq<Item>, node: Node, lower: bytes -> bytes)
    decreases node
  {
    var blocks := Blocks(items);
    && ShowsValues(items, node.values, lower)
    && |blocks| == |node.children|
    && forall i :: 0 <= i < |blocks| ==>
         lower(blocks[i].key) == node.children[i].name && Shows(blocks[i].body, node.children[i], lower)
  }

  // ----- building -----

  function Empty(name: bytes): Node {
    Node(name, map[], [])
  }

  function BuildBlocks(blocks: seq<Item>, lower: bytes -> bytes): (nodes: seq<Node>)
    requires forall b <- blocks :: b.Block?
    ensures |nodes| == |blocks|
    ensures forall i :: 0 <= i < |nodes| ==> nodes[i] == Build(Empty(lower(blocks[i].key)), blocks[i].body, lower)
  {
    if blocks == [] then []
    else [Build(Empty(lower(blocks[0].key)), blocks[0].body, lower)] + BuildBlocks(blocks[1..], lower)
  }

  lemma {:induction false} BuildChildren(node: Node, items: seq<Item>, lower: bytes -> bytes)
    ensures Build(node, items, lower).name == node.name
    ensures Build(node, items, lower).children == node.children + BuildBlocks(Blocks(items), lower)
    decreases |items|
  {
    if items == [] {
    } else {
      var next, blocks := Add(node, items[0], lower), Blocks(items[1..]);
      BuildChildren(next, items[1..], lower);
      if items[0].Block? {
        var first := Build(Empty(lower(items[0].key)), items[0].body, lower);
        assert next.children == node.children + [first];
        assert Blocks(items)[0] == items[0] && Blocks(items)[1..] == blocks;
        Associate(node.children, [first], BuildBlocks(blocks, lower));
      } else {
        assert Blocks(items) == blocks;
      }
    }
  }

  lemma {:induction false} LastSetLater(items: seq<Item>, key: bytes, lower: bytes -> bytes, i: nat)
    requires items != [] && LastSet(items[1..], key, lower, i)
    ensures LastSet(items, key, lower, i + 1)
  {
    forall j | i + 1 < j < |items| ensures !Sets(items[j], key, lower) {
      assert items[j] == items[1..][j - 1];
    }
  }

  /** The value under a key is that of the last item that sets it, or what was there before. */
  lemma {:induction false} BuildValue(node: Node, items: seq<Item>, key: bytes, lower: bytes -> bytes)
    returns (last: Option<nat>)
    ensures last.None? ==> forall i :: 0 <= i < |items| ==> !Sets(items[i], key, lower)
    ensures last.Some? ==> LastSet(items, key, lower, last.value)
    ensures var built := Build(node, items, lower).values;
      if last.Some? then key in built && built[key] == ValueOf(items[last.value])
      else (key in built <==> key in node.values) && (key in built ==> built[key] == node.values[key])
    decreases |items|
  {
    if items == [] {
      last := None;
    } else {
      var later := BuildValue(Add(node, items[0], lower), items[1..], key, lower);
      if later.Some? {
        LastSetLater(items, key, lower, later.value);
        last := Some(later.value + 1);
      } else {
        assert forall j :: 1 <= j < |items| ==> items[j] == items[1..][j - 1];
        last := if Sets(items[0], key, lower) then Some(0) else None;
      }
    }
  }

  lemma {:induction false} BuildShowsValues(name: bytes, items: seq<Item>, lower: bytes -> bytes)
    ensures ShowsValues(items, Build(Empty(name), items, lower).values, lower)
  {
    var built := Build(Empty(name), items, lower).values;
    forall i | 0 <= i < |items| && !items[i].Block? ensures lower(items[i].key) in built {
      var last := BuildValue(Empty(name), items, lower(items[i].key), lower);
      assert Sets(items[i], lower(items[i].key), lower);
    }
    forall k | k in built ensures exists i: nat :: LastSet(items, k, lower, i) && built[k] == ValueOf(items[i]) {
      var last := BuildValue(Empty(name), items, k, lower);
      assert LastSet(items, k, lower, last.value);
    }
  }

  lemma {:induction false} BuildShows(name: bytes, items: seq<Item>, lower: bytes -> bytes)
    ensures Shows(items, Build(Empty(name), items, lower), lower)
    decreases items
  {
    var blocks, node := Blocks(items), Build(Empty(name), items, lower);
    BuildChildren(Empty(name), items, lower);
    BuildShowsValues(name, items, lower);
    forall i | 0 <= i < |blocks|
      ensures lower(blocks[i].key) == node.children[i].name && Shows(blocks[i].body, node.children[i], lower)
    {
      assert blocks[i] in items;
      var j :| 0 <= j < |items| && items[j] == blocks[i];
      BuildChildren(Empty(lower(items[j].key)), items[j].body, lower);
      BuildShows(lower(items[j].key), items[j].body, lower);
    }
  }

  lemma {:induction false} OneLastSet(items: seq<Item>, key: bytes, lower: bytes -> bytes, i: nat, j: nat)
    requires LastSet(items, key, lower, i) && LastSet(items, key, lower, j)
    ensures i == j
  {}

  lemma {:induction false} ValuesAreIn(items: seq<Item>, a: map<bytes, Value>, b: map<bytes, Value>,
                                       lower: bytes -> bytes)
    requires ShowsValues(items, a, lower) && ShowsValues(items, b, lower)
    ensures forall k <- a :: k in b && b[k] == a[k]
  {
    forall k | k in a ensures k in b && b[k] == a[k] {
      var i: nat :| LastSet(items, k, lower, i) && a[k] == ValueOf(items[i]);
      assert k in b;
      var j: nat :| LastSet(items, k, lower, j) && b[k] == ValueOf(items[j]);
      OneLastSet(items, k, lower, i, j);
    }
  }

  lemma {:induction false} SameValues(items: seq<Item>, a: map<bytes, Value>, b: map<bytes, Value>,
                                      lower: bytes -> bytes)
    requires ShowsValues(items, a, lower) && ShowsValues(items, b, lower)
    ensures a == b
  {
    ValuesAreIn(items, a, b, lower);
    ValuesAreIn(items, b, a, lower);
  }

  lemma {:induction false} ShownOnce(items: seq<Item>, a: Node, b: Node, lower: bytes -> bytes)
    requires Shows(items, a, lower) && Shows(items, b, lower) && a.name == b.name
    ensures a == b
    decreases a
  {
    SameValues(items, a.values, b.values, lower);
    forall i | 0 <= i < |a.children| ensures a.children[i] == b.children[i] {
      ShownOnce(Blocks(items)[i].body, a.children[i], b.children[i], lower);
    }
  }

  /** Building gives a tree exactly if the items show it. */
  lemma {:induction false} BuildIff(items: seq<Item>, node: Node, lower: bytes -> bytes)
    ensures Build(Empty(node.name), items, lower) == node <==> Shows(items, node, lower)
  {
    BuildShows(node.name, items, lower);
    BuildChildren(Empty(node.name), items, lower);
    if Shows(items, node, lower) {
      ShownOnce(items, Build(Empty(node.name), items, lower), node, lower);
    }
  }

  /** Every serialisation of items that show a tree is read as that tree, and exactly its bytes are consumed. */
  lemma {:induction false} TreeRoundTrip(items: seq<Item>, node: Node, lower: bytes -> bytes, close: byte, rest: bytes)
    requires ValidItems(items) && Closes(close) && Shows(items, node, lower)
    ensures ReadItems(ItemsThen(items, [close] + rest)) == Ok((items, close, rest))
    ensures Build(Empty(node.name), items, lower) == node
  {
    ItemsBack(items, close, rest);
    BuildIff(items, node, lower);
  }

  // ----- every tree has a serialisation -----

  /** A tree the format can hold: keys are NUL-free, fixed by lower-casing, and values fit their width. */
  predicate IsTree(node: Node, lower: bytes -> bytes)
    decreases node
  {
    && ValidString(node.name) && lower(node.name) == node.name
    && (forall k :: k in node.values ==> ValidString(k) && lower(k) == k && ValidValue(node.values[k]))
    && (forall i :: 0 <= i < |node.children| ==> IsTree(node.children[i], lower))
  }

  predicate ValidValue(v: Value) {
    match v
    case Text(text) => ValidString(text)
    case Uint(n) => n < LE.Range(8)
    case Float(bits) => bits < LE.Range(4)
  }

  ghost function RenderValue(key: bytes, v: Value): Item {
    match v
    case Text(text) => TextItem(key, text)
    case Uint(n) => WordItem(7, key, n)
    case Float(bits) => WordItem(3, key, bits)
  }

  ghost function RenderValues(values: map<bytes, Value>): seq<Item>
    decreases |values.Keys|
  {
    if values.Keys == {} then []
    else
      var k := Pick(values.Keys);
      [RenderValue(k, values[k])] + RenderValues(values - {k})
  }

  ghost function RenderChildren(node: Node, from: nat): seq<Item>
    requires from <= |node.children|
    decreases node, 0, |node.children| - from
  {
    if from == |node.children| then []
    else
      var child := node.children[from];
      [Block(child.name, Render(child), 8)] + RenderChildren(node, from + 1)
  }

  /** Some serialisation order of a tree: its values in any order, then its children. */
  ghost function Render(node: Node): seq<Item>
    decreases node, 1
  {
    RenderValues(node.values) + RenderChildren(node, 0)
  }

  lemma {:induction false} ValidConcat(a: seq<Item>, b: seq<Item>)
    requires ValidItems(a) && ValidItems(b)
    ensures ValidItems(a + b)
    decreases |a|
  {
    if a == [] {
      assert a + b == b;
    } else {
      ValidConcat(a[1..], b);
      assert (a + b)[1..] == a[1..] + b;
    }
  }

  lemma {:induction false} BuildConcat(node: Node, a: seq<Item>, b: seq<Item>, lower: bytes -> bytes)
    ensures Build(node, a + b, lower) == Build(Build(node, a, lower), b, lower)
    decreases |a|
  {
    if a == [] {
      assert a + b == b;
    } else {
      BuildConcat(Add(node, a[0], lower), a[1..], b, lower);
      assert (a + b)[1..] == a[1..] + b;
    }
  }

  lemma ValueBuildBack(node: Node, k: bytes, v: Value, lower: bytes -> bytes)
    requires ValidString(k) && lower(k) == k && ValidValue(v)
    ensures ValidItem(RenderValue(k, v))
    ensures Add(node, RenderValue(k, v), lower) == node.(values := node.values[k := v])
  {}

  lemma MapSplit(base: map<bytes, Value>, values: map<bytes, Value>, k: bytes)
    requires k in values
    ensures base[k := values[k]] + (values - {k}) == base + values
  {}

  lemma {:induction false} ValuesBuildBack(node: Node, values: map<bytes, Value>, lower: bytes -> bytes)
    requires forall k :: k in values ==> ValidString(k) && lower(k) == k && ValidValue(values[k])
    ensures ValidItems(RenderValues(values))
    ensures Build(node, RenderValues(values), lower) == node.(values := node.values + values)
    decreases |values.Keys|
  {
    if values.Keys == {} {
      assert node.values + values == node.values;
    } else {
      var k := Pick(values.Keys);
      ValueBuildBack(node, k, values[k], lower);
      ValuesBuildBack(node.(values := node.values[k := values[k]]), values - {k}, lower);
      MapSplit(node.values, values, k);
    }
  }

  lemma {:induction false} AddBack(built: Node, child: Node, lower: bytes -> bytes)
    requires lower(child.name) == child.name
    requires Build(Empty(child.name), Render(child), lower) == child
    ensures Add(built, Block(child.name, Render(child), 8), lower) ==
            built.(children := built.children + [child])
  {}

  lemma {:induction false} ChildrenBuildBack(node: Node, from: nat, built: Node, lower: bytes -> bytes)
    requires IsTree(node, lower) && from <= |node.children|
    ensures ValidItems(RenderChildren(node, from))
    ensures Build(built, RenderChildren(node, from), lower) ==
            built.(children := built.children + node.children[from..])
    decreases node, 0, |node.children| - from
  {
    if from == |node.children| {
      assert built.children + node.children[from..] == built.children;
    } else {
      var child := node.children[from];
      TreeBuildBack(child, lower);
      var more := built.(children := built.children + [child]);
      AddBack(built, child, lower);
      ChildrenBuildBack(node, from + 1, more, lower);
      assert node.children[from..] == [child] + node.children[from + 1..];
      Associate(built.children, [child], node.children[from + 1..]);
    }
  }

  lemma {:induction false} TreeBuildBack(node: Node, lower: bytes -> bytes)
    requires IsTree(node, lower)
    ensures ValidItems(Render(node))
    ensures Build(Empty(node.name), Render(node), lower) == node
    decreases node, 1
  {
    var empty := Empty(node.name);
    ValuesBuildBack(empty, node.values, lower);
    var withValues := empty.(values := map[] + node.values);
    ChildrenBuildBack(node, 0, withValues, lower);
    ValidConcat(RenderValues(node.values), RenderChildren(node, 0));
    BuildConcat(empty, RenderValues(node.values), RenderChildren(node, 0), lower);
    assert map[] + node.values == node.values && [] + node.children[0..] == node.children;
  }

  /** Every tree that the format can hold is shown by some list of valid items. */
  lemma {:induction false} EveryTreeIsSerialised(node: Node, lower: bytes -> bytes)
    requires IsTree(node, lower)
    ensures ValidItems(Render(node)) && Shows(Render(node), node, lower)
  {
    TreeBuildBack(node, lower);
    BuildIff(Render(node), node, lower);
  }
}
