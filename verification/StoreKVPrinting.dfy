/**
  The writer of binary KeyValues, as the specification of the reader: the reader accepts exactly
  the serialised item lists, and every tree survives the round trip.
 */
module StoreKVPrinting {
  import opened Prelude
  import opened StoreKV
  import LE = LittleEndian

  /** A byte that ends a list of items. */
  predicate Closes(b: byte) {
    b == 8 || b == 11
  }

  /** The bytes that a number of a kind takes; of no other kind is there a number. */
  function Size(kind: byte): nat {
    match kind
    case 2 | 3 | 6 => 4
    case 7 | 9 | 10 => 8
    case _ => 0
  }

  predicate ValidString(s: bytes) {
    0 !in s && |s| <= 65536
  }

  predicate ValidItem(item: Item)
    decreases item, 1
  {
    match item
    case Block(key, body, close) => ValidString(key) && Closes(close) && ValidItems(body)
    case TextItem(key, text) => ValidString(key) && ValidString(text)
    case WordItem(kind, key, n) => ValidString(key) && Size(kind) > 0 && n < LE.Range(Size(kind))
  }

  predicate ValidItems(items: seq<Item>)
    decreases items, 0
  {
    items == [] || (ValidItem(items[0]) && ValidItems(items[1..]))
  }

  // ----- serialising, each part in front of what follows it -----

  function CStringThen(s: bytes, tail: bytes): bytes {
    s + ([0] + tail)
  }

  function ItemThen(item: Item, tail: bytes): bytes
    decreases item, 1
  {
    match item
    case Block(key, body, close) => [0] + CStringThen(key, ItemsThen(body, [close] + tail))
    case TextItem(key, text) => [1] + CStringThen(key, CStringThen(text, tail))
    case WordItem(kind, key, n) => [kind] + CStringThen(key, LE.Put(n, Size(kind)) + tail)
  }

  function ItemsThen(items: seq<Item>, tail: bytes): bytes
    decreases items, 0
  {
    if items == [] then tail else ItemThen(items[0], ItemsThen(items[1..], tail))
  }

  // ----- what is written is read -----

  lemma {:induction false} CStringBack(s: bytes, tail: bytes, read: nat)
    requires 0 !in s && read + |s| <= 65536
    ensures ReadCString(CStringThen(s, tail), read) == Ok((s, tail))
  {
    var t := CStringThen(s, tail);
    if s == [] {
      assert t[1..] == tail;
    } else {
      CStringBack(s[1..], tail, read + 1);
      assert t[1..] == CStringThen(s[1..], tail);
      assert [s[0]] + s[1..] == s;
    }
  }

  lemma {:induction false} ItemBack(item: Item, tail: bytes)
    requires ValidItem(item)
    ensures ItemThen(item, tail) != [] && !IsEnd(ItemThen(item, tail)[0])
    ensures ReadItem(ItemThen(item, tail)) == Ok((item, tail))
    decreases item, 1
  {
    var t := ItemThen(item, tail);
    match item
    case Block(key, body, close) =>
      assert t[1..] == CStringThen(key, ItemsThen(body, [close] + tail));
      CStringBack(key, ItemsThen(body, [close] + tail), 0);
      ItemsBack(body, close, tail);
    case TextItem(key, text) =>
      assert t[1..] == CStringThen(key, CStringThen(text, tail));
      CStringBack(key, CStringThen(text, tail), 0);
      CStringBack(text, tail, 0);
    case WordItem(kind, key, n) =>
      var number := LE.Put(n, Width(kind)) + tail;
      assert t[1..] == CStringThen(key, number);
      CStringBack(key, number, 0);
      assert number[..Width(kind)] == LE.Put(n, Width(kind)) && number[Width(kind)..] == tail;
      LE.GetPut(n, Width(kind));
  }

  lemma {:induction false} ItemsBack(items: seq<Item>, close: byte, tail: bytes)
    requires ValidItems(items) && Closes(close)
    ensures ReadItems(ItemsThen(items, [close] + tail)) == Ok((items, close, tail))
    decreases items, 0
  {
    if items == [] {
      assert ([close] + tail)[1..] == tail;
    } else {
      ItemBack(items[0], ItemsThen(items[1..], [close] + tail));
      ItemsBack(items[1..], close, tail);
      assert [items[0]] + items[1..] == items;
    }
  }

  // ----- what is read was written -----

  lemma {:induction false} CStringSound(s: bytes, read: nat)
    requires ReadCString(s, read).Ok?
    ensures var result := ReadCString(s, read).value;
      var text, rest := result.0, result.1;
      0 !in text && read + |text| <= 65536 && s == CStringThen(text, rest)
    decreases |s|
  {
    var (text, rest) := ReadCString(s, read).value;
    if s[0] == 0 {
      assert s == CStringThen([], s[1..]);
    } else {
      CStringSound(s[1..], read + 1);
      var more := ReadCString(s[1..], read + 1).value.0;
      assert [s[0]] + CStringThen(more, rest) == CStringThen([s[0]] + more, rest);
    }
  }

  lemma {:induction false} ItemSound(s: bytes)
    requires s != [] && !IsEnd(s[0]) && ReadItem(s).Ok?
    ensures var read := ReadItem(s).value;
      var item, rest := read.0, read.1;
      ValidItem(item) && s == ItemThen(item, rest)
    decreases |s|, 0
  {
    var (item, rest) := ReadItem(s).value;
    CStringSound(s[1..], 0);
    var (key, r) := ReadCString(s[1..], 0).value;
    assert s == [s[0]] + CStringThen(key, r);
    match item
    case Block(_, body, close) =>
      ItemsSound(r);
    case TextItem(_, text) =>
      CStringSound(r, 0);
    case WordItem(kind, _, n) =>
      LE.PutGet(r[..Width(kind)]);
      assert r == r[..Width(kind)] + r[Width(kind)..];
  }

  lemma {:induction false} ItemsSound(s: bytes)
    requires ReadItems(s).Ok?
    ensures var read := ReadItems(s).value;
      var items, close, rest := read.0, read.1, read.2;
      ValidItems(items) && Closes(close) && s == ItemsThen(items, [close] + rest)
    decreases |s|, 1
  {
    var (items, close, rest) := ReadItems(s).value;
    if IsEnd(s[0]) {
      assert s == [s[0]] + s[1..];
    } else {
      ItemSound(s);
      ItemsSound(ReadItem(s).value.1);
      assert items[1..] == ReadItems(ReadItem(s).value.1).value.0;
    }
  }

  /** The reader accepts exactly the serialised lists of valid items, and consumes exactly their bytes. */
  lemma ReadIff(s: bytes, items: seq<Item>, close: byte, rest: bytes)
    ensures ReadItems(s) == Ok((items, close, rest)) <==>
            ValidItems(items) && Closes(close) && s == ItemsThen(items, [close] + rest)
  {
    if ReadItems(s) == Ok((items, close, rest)) {
      ItemsSound(s);
    }
    if ValidItems(items) && Closes(close) && s == ItemsThen(items, [close] + rest) {
      ItemsBack(items, close, rest);
    }
  }

  lemma StringAccepted(s: bytes, n: nat)
    requires n < |s| && n <= 65536 && s[n] == 0 && 0 !in s[..n]
    ensures ReadCString(s, 0) == Ok((s[..n], s[n + 1..]))
  {
    var text, tail := s[..n], s[n + 1..];
    assert |text| == n && s == text + ([0] + tail);
    CStringBack(text, tail, 0);
  }

  lemma AcceptedString(s: bytes) returns (n: nat)
    requires ReadCString(s, 0).Ok?
    ensures n < |s| && n <= 65536 && s[n] == 0 && 0 !in s[..n]
  {
    CStringSound(s, 0);
    var (text, rest) := ReadCString(s, 0).value;
    n := |text|;
    assert s[..n] == text;
  }

  /** A string is accepted exactly when a NUL follows at most 65536 other bytes. */
  lemma StringAcceptedIff(s: bytes)
    ensures ReadCString(s, 0).Ok? <==>
            exists n :: 0 <= n < |s| && n <= 65536 && s[n] == 0 && 0 !in s[..n]
  {
    if ReadCString(s, 0).Ok? {
      var n := AcceptedString(s);
    }
    forall n: nat | n < |s| && n <= 65536 && s[n] == 0 && 0 !in s[..n]
      ensures ReadCString(s, 0).Ok?
    {
      StringAccepted(s, n);
    }
  }
}
