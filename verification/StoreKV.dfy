/**
  The binary KeyValues format of the store price sheet.

  `ReadItems` is the meaning of the parser on the bytes still to be read: the list of items on
  the wire.  `Build` is what the parser makes of them.  The class `Reader` is the byte reader
  that the program consumes while it fills the nodes.
 */
module StoreKV {
  import opened Prelude
  import LE = LittleEndian

  const END: byte := 8
  const END_ALTERNATE: byte := 11
  const MAX_STRING: nat := 65536

  datatype Error = EOF | StringTooLong | UnsupportedKind(kind: byte)

  /** A value as the node holds it; integers of every width become 64-bit ones. */
  datatype Value = Text(text: bytes) | Uint(n: nat) | Float(bits: nat)

  datatype Node = Node(name: bytes, values: map<bytes, Value>, children: seq<Node>)

  /** An item as it stands on the wire, with the kind byte and the key before lower-casing. */
  datatype Item =
    | Block(key: bytes, body: seq<Item>, close: byte)
    | TextItem(key: bytes, text: bytes)
    | WordItem(kind: byte, key: bytes, n: nat)

  predicate IsEnd(kind: byte) {
    kind == END || kind == END_ALTERNATE
  }

  /** The width of a number of the given kind, 0 if it is not a number. */
  function Width(kind: byte): nat {
    if kind in {2, 3, 6} then 4 else if kind in {7, 9, 10} then 8 else 0
  }

  // ----- reading -----

  /** Reads a NUL-terminated string of which `read` bytes are already in. */
  function ReadCString(s: bytes, read: nat): (r: Result<(bytes, bytes), Error>)
    ensures r.Ok? ==> |r.value.1| < |s|
    decreases |s|
  {
    if read > MAX_STRING then Err(StringTooLong)
    else if s == [] then Err(EOF)
    else if s[0] == 0 then Ok(([], s[1..]))
    else
      var (text, rest) :- ReadCString(s[1..], read + 1);
      Ok(([s[0]] + text, rest))
  }

  function ReadNumber(s: bytes, width: nat): Result<(nat, bytes), Error> {
    if |s| < width then Err(EOF) else Ok((LE.Get(s[..width]), s[width..]))
  }

  function ReadItem(s: bytes): (r: Result<(Item, bytes), Error>)
    requires s != []
    ensures r.Ok? ==> |r.value.1| < |s|
    decreases |s|, 0
  {
    var kind := s[0];
    var (key, r) :- ReadCString(s[1..], 0);
    if kind == 0 then
      var (body, close, r2) :- ReadItems(r);
      Ok((Block(key, body, close), r2))
    else if kind == 1 then
      var (text, r2) :- ReadCString(r, 0);
      Ok((TextItem(key, text), r2))
    else if Width(kind) > 0 then
      var (n, r2) :- ReadNumber(r, Width(kind));
      Ok((WordItem(kind, key, n), r2))
    else Err(UnsupportedKind(kind))
  }

  /** Reads items up to the byte that ends them. */
  function ReadItems(s: bytes): (r: Result<(seq<Item>, byte, bytes), Error>)
    ensures r.Ok? ==> |r.value.2| < |s|
    decreases |s|, 1
  {
    if s == [] then Err(EOF)
    else if IsEnd(s[0]) then Ok(([], s[0], s[1..]))
    else
      var (item, r) :- ReadItem(s);
      var (items, close, r2) :- ReadItems(r);
      Ok(([item] + items, close, r2))
  }

  /** What reading items adds to a node; `lower` is strings.ToLower. */
  function Add(node: Node, item: Item, lower: bytes -> bytes): Node
    decreases item, 1
  {
    match item
    case Block(key, body, _) =>
      node.(children := node.children + [Build(Node(lower(key), map[], []), body, lower)])
    case TextItem(key, text) => node.(values := node.values[lower(key) := Text(text)])
    case WordItem(kind, key, n) => node.(values := node.values[lower(key) := if kind == 3 then Float(n) else Uint(n)])
  }

  function Build(node: Node, items: seq<Item>, lower: bytes -> bytes): Node
    decreases items, 0
  {
    if items == [] then node else Build(Add(node, items[0], lower), items[1..], lower)
  }

  function Prepend(done: seq<Item>,
                   r: Result<(seq<Item>, byte, bytes), Error>): Result<(seq<Item>, byte, bytes), Error> {
    if r.Ok? then Ok((done + r.value.0, r.value.1, r.value.2)) else r
  }

  lemma PrependOne(done: seq<Item>, item: Item, r: Result<(seq<Item>, byte, bytes), Error>)
    ensures Prepend([], r) == r
    ensures Prepend(done + [item], r) == Prepend(done, Prepend([item], r))
  {
    if r.Ok? {
      assert [] + r.value.0 == r.value.0;
      assert done + [item] + r.value.0 == done + ([item] + r.value.0);
    }
  }

  lemma {:induction false} BuildOneMore(node: Node, items: seq<Item>, item: Item, lower: bytes -> bytes)
    ensures Build(node, items + [item], lower) == Add(Build(node, items, lower), item, lower)
    decreases |items|
  {
    if items == [] {
      assert items + [item] == [item];
    } else {
      BuildOneMore(Add(node, items[0], lower), items[1..], item, lower);
      assert (items + [item])[1..] == items[1..] + [item];
    }
  }

  function PrependText(read: bytes, r: Result<(bytes, bytes), Error>): Result<(bytes, bytes), Error> {
    if r.Ok? then Ok((read + r.value.0, r.value.1)) else r
  }

  lemma PrependByte(read: bytes, b: byte, r: Result<(bytes, bytes), Error>)
    ensures PrependText([], r) == r
    ensures PrependText(read + [b], r) == PrependText(read, PrependText([b], r))
  {
    if r.Ok? {
      assert [] + r.value.0 == r.value.0;
      assert read + [b] + r.value.0 == read + ([b] + r.value.0);
    }
  }

  class Reader {
    const data: bytes
    const lower: bytes -> bytes
    var pos: nat

    constructor (data: bytes, lower: bytes -> bytes)
      ensures Valid() && this.data == data && this.lower == lower && pos == 0
    {
      this.data := data;
      this.lower := lower;
      pos := 0;
    }

    ghost predicate Valid()
      reads this
    {
      pos <= |data|
    }

    ghost function Rest(): bytes
      reads this
      requires Valid()
    {
      data[pos..]
    }

    method StoreCString() returns (r: Result<bytes, Error>)
      requires Valid()
      modifies this
      ensures Valid()
      ensures var spec := ReadCString(old(Rest()), 0);
        if r.Ok? then spec == Ok((r.value, Rest())) else spec == Err(r.error)
    {
      ghost var start := Rest();
      var text: bytes := [];
      PrependByte([], 0, ReadCString(start, 0));
      while |text| <= MAX_STRING
        invariant Valid()
        invariant ReadCString(start, 0) == PrependText(text, ReadCString(Rest(), |text|))
        decreases MAX_STRING + 1 - |text|
      {
        if pos == |data| {
          return Err(EOF);
        }
        ghost var s := Rest();
        var c := data[pos];
        pos := pos + 1;
        assert Rest() == s[1..];
        if c == 0 {
          assert text + [] == text;
          return Ok(text);
        }
        PrependByte(text, c, ReadCString(Rest(), |text| + 1));
        text := text + [c];
      }
      return Err(StringTooLong);
    }

    method ReadUint(width: nat) returns (r: Result<nat, Error>)
      requires Valid()
      modifies this
      ensures Valid()
      ensures var spec := ReadNumber(old(Rest()), width);
        if r.Ok? then spec == Ok((r.value, Rest())) else spec == Err(r.error)
    {
      if |data| - pos < width {
        return Err(EOF);
      }
      assert Rest()[..width] == data[pos..pos + width] && Rest()[width..] == data[pos + width..];
      r := Ok(LE.Get(data[pos..pos + width]));
      pos := pos + width;
    }

    /** Reads the item whose kind byte was just read, and adds it to the node. */
    method ParseItem(kind: byte, parent: Node) returns (r: Result<Node, Error>, ghost item: Item)
      requires Valid() && pos > 0 && data[pos - 1] == kind
      modifies this
      ensures Valid()
      ensures var spec := ReadItem(old(data[pos - 1..]));
        if r.Ok? then spec == Ok((item, Rest())) && r.value == Add(parent, item, lower) else spec == Err(r.error)
      decreases |data| - pos, 0
    {
      item := TextItem([], []);
      ghost var s := data[pos - 1..];
      assert s[1..] == Rest();
      var rawKey := StoreCString();
      if rawKey.Err? {
        return Err(rawKey.error), item;
      }
      var key := lower(rawKey.value);
      if kind == 0 {
        ghost var body;
        ghost var close;
        var child;
        child, body, close := ParseStoreKV(Node(key, map[], []));
        if child.Err? {
          return Err(child.error), item;
        }
        item := Block(rawKey.value, body, close);
        return Ok(parent.(children := parent.children + [child.value])), item;
      }
      if kind == 1 {
        var text := StoreCString();
        if text.Err? {
          return Err(text.error), item;
        }
        item := TextItem(rawKey.value, text.value);
        return Ok(parent.(values := parent.values[key := Text(text.value)])), item;
      }
      if Width(kind) > 0 {
        var n := ReadUint(Width(kind));
        if n.Err? {
          return Err(n.error), item;
        }
        item := WordItem(kind, rawKey.value, n.value);
        var value := if kind == 3 then Float(n.value) else Uint(n.value);
        return Ok(parent.(values := parent.values[key := value])), item;
      }
      return Err(UnsupportedKind(kind)), item;
    }

    method ParseStoreKV(parent: Node) returns (r: Result<Node, Error>, ghost items: seq<Item>, ghost close: byte)
      requires Valid()
      modifies this
      ensures Valid()
      ensures var spec := ReadItems(old(Rest()));
        if r.Ok? then spec == Ok((items, close, Rest())) && r.value == Build(parent, items, lower)
        else spec == Err(r.error)
      decreases |data| - pos, 1
    {
      ghost var start := Rest();
      var node := parent;
      items, close := [], 0;
      PrependOne([], TextItem([], []), ReadItems(start));
      while true
        invariant Valid() && old(pos) <= pos
        invariant ReadItems(start) == Prepend(items, ReadItems(Rest()))
        invariant node == Build(parent, items, lower)
        decreases |data| - pos
      {
        if pos == |data| {
          return Err(EOF), items, close;
        }
        ghost var s := Rest();
        var kind := data[pos];
        pos := pos + 1;
        assert Rest() == s[1..];
        if IsEnd(kind) {
          close := kind;
          assert items + [] == items;
          return Ok(node), items, close;
        }
        ghost var item;
        var added;
        added, item := ParseItem(kind, node);
        if added.Err? {
          return Err(added.error), items, close;
        }
        node := added.value;
        BuildOneMore(parent, items, item, lower);
        PrependOne(items, item, ReadItems(Rest()));
        items := items + [item];
      }
    }
  }
}
