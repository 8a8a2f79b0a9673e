/**
  Exactly what the reader of binary KeyValues rejects, and with which error: the bytes that are well
  formed up to the place where it cannot go on.
 */
module StoreKVErrors {
  import opened Prelude
  import opened StoreKV
  import opened StoreKVPrinting
  import LE = LittleEndian

  /** What stands where the next item cannot be read; `half` and `few` reach to the end of the data. */
  datatype Break =
    | NoItem
    | BadKey(kind: byte, half: bytes)
    | BadKind(kind: byte, key: bytes, rest: bytes)
    | BadText(key: bytes, half: bytes)
    | ShortNumber(kind: byte, key: bytes, few: bytes)
    | Within(key: bytes, items: seq<Item>, inner: Break)

  function BreakBytes(b: Break): bytes {
    match b
    case NoItem => []
    case BadKey(kind, half) => [kind] + half
    case BadKind(kind, key, rest) => [kind] + CStringThen(key, rest)
    case BadText(key, half) => [1] + CStringThen(key, half)
    case ShortNumber(kind, key, few) => [kind] + CStringThen(key, few)
    case Within(key, items, inner) => [0] + CStringThen(key, ItemsThen(items, BreakBytes(inner)))
  }

  /** A string without its NUL, or with too many bytes before it. */
  predicate BadString(half: bytes) {
    0 !in (if |half| <= 65536 then half else half[..65537])
  }

  function StringError(half: bytes): Error {
    if |half| <= 65536 then EOF else StringTooLong
  }

  function BreakError(b: Break): Error {
    match b
    case NoItem => EOF
    case BadKey(_, half) => StringError(half)
    case BadKind(kind, _, _) => UnsupportedKind(kind)
    case BadText(_, half) => StringError(half)
    case ShortNumber(_, _, _) => EOF
    case Within(_, _, inner) => BreakError(inner)
  }

  predicate ValidBreak(b: Break) {
    match b
    case NoItem => true
    case BadKey(kind, half) => !Closes(kind) && BadString(half)
    case BadKind(kind, key, _) => kind != 0 && kind != 1 && Size(kind) == 0 && !Closes(kind) && ValidString(key)
    case BadText(key, half) => ValidString(key) && BadString(half)
    case ShortNumber(kind, key, few) => ValidString(key) && |few| < Size(kind)
    case Within(key, items, inner) => ValidString(key) && ValidItems(items) && ValidBreak(inner)
  }

  // ----- strings -----

  /** With `read` bytes already in, a string fails exactly without a NUL in time. */
  lemma {:induction false} StringFailsIff(s: bytes, read: nat)
    requires read <= 65537
    ensures ReadCString(s, read) == Err(StringTooLong) <==> |s| > 65536 - read && 0 !in s[..65537 - read]
    ensures ReadCString(s, read) == Err(EOF) <==> |s| <= 65536 - read && 0 !in s
    ensures forall kind :: ReadCString(s, read) != Err(UnsupportedKind(kind))
    decreases |s|
  {
    if read > 65536 {
      assert s[..0] == [];
    } else if s == [] || s[0] == 0 {
    } else {
      StringFailsIff(s[1..], read + 1);
      assert |s| > 65536 - read ==> s[..65537 - read] == [s[0]] + s[1..][..65536 - read];
      assert s == [s[0]] + s[1..];
    }
  }

  /** So a key or a text fails exactly if it is bad, and with its error. */
  lemma BadStringIff(s: bytes)
    ensures ReadCString(s, 0).Err? <==> BadString(s)
    ensures ReadCString(s, 0).Err? ==> ReadCString(s, 0) == Err(StringError(s))
  {
    StringFailsIff(s, 0);
    if ReadCString(s, 0).Err? {
      match ReadCString(s, 0).error
      case EOF =>
      case StringTooLong =>
      case UnsupportedKind(kind) => assert false;
    }
  }

  // ----- broken data is rejected -----

  lemma {:induction false} ItemsThenFails(items: seq<Item>, tail: bytes)
    requires ValidItems(items) && ReadItems(tail).Err?
    ensures ReadItems(ItemsThen(items, tail)) == Err(ReadItems(tail).error)
    decreases items
  {
    if items == [] {
    } else {
      ItemBack(items[0], ItemsThen(items[1..], tail));
      ItemsThenFails(items[1..], tail);
    }
  }

  lemma {:induction false} BreakFails(b: Break)
    requires ValidBreak(b)
    ensures ReadItems(BreakBytes(b)) == Err(BreakError(b))
  {
    var s := BreakBytes(b);
    match b
    case NoItem =>
    case BadKey(_, half) =>
      BadStringIff(half);
      assert s[1..] == half;
    case BadKind(kind, key, rest) =>
      CStringBack(key, rest, 0);
      assert s[1..] == CStringThen(key, rest);
    case BadText(key, half) =>
      CStringBack(key, half, 0);
      BadStringIff(half);
      assert s[1..] == CStringThen(key, half);
    case ShortNumber(_, key, few) =>
      CStringBack(key, few, 0);
      assert s[1..] == CStringThen(key, few);
    case Within(key, items, inner) =>
      var body := ItemsThen(items, BreakBytes(inner));
      CStringBack(key, body, 0);
      BreakFails(inner);
      ItemsThenFails(items, BreakBytes(inner));
      assert s[1..] == CStringThen(key, body);
  }

  // ----- what is rejected is broken -----

  lemma {:induction false} ItemBreakOf(s: bytes) returns (b: Break)
    requires s != [] && !Closes(s[0]) && ReadItem(s).Err?
    ensures ValidBreak(b) && s == BreakBytes(b) && ReadItem(s) == Err(BreakError(b))
    decreases |s|, 0
  {
    var kind := s[0];
    assert s == [kind] + s[1..];
    BadStringIff(s[1..]);
    if ReadCString(s[1..], 0).Err? {
      b := BadKey(kind, s[1..]);
    } else {
      var (key, r) := ReadCString(s[1..], 0).value;
      CStringSound(s[1..], 0);
      if kind == 0 {
        var items, inner := BreakOf(r);
        b := Within(key, items, inner);
      } else if kind == 1 {
        BadStringIff(r);
        b := BadText(key, r);
      } else if Size(kind) > 0 {
        b := ShortNumber(kind, key, r);
      } else {
        b := BadKind(kind, key, r);
      }
    }
  }

  lemma {:induction false} BreakOf(s: bytes) returns (items: seq<Item>, b: Break)
    requires ReadItems(s).Err?
    ensures ValidItems(items) && ValidBreak(b) && s == ItemsThen(items, BreakBytes(b))
    ensures ReadItems(s) == Err(BreakError(b))
    decreases |s|, 1
  {
    if s == [] {
      items, b := [], NoItem;
    } else if ReadItem(s).Err? {
      b := ItemBreakOf(s);
      items := [];
    } else {
      var (item, r) := ReadItem(s).value;
      ItemSound(s);
      var more;
      more, b := BreakOf(r);
      items := [item] + more;
      assert items[1..] == more;
    }
  }

  predicate IsBroken(items: seq<Item>, b: Break, s: bytes, error: Error) {
    ValidItems(items) && ValidBreak(b) && s == ItemsThen(items, BreakBytes(b)) && error == BreakError(b)
  }

  /** Reading fails with an error exactly if the data is a list of items that breaks off with that error. */
  lemma ErrorIff(s: bytes, error: Error)
    ensures ReadItems(s) == Err(error) <==> exists items, b :: IsBroken(items, b, s, error)
  {
    if ReadItems(s) == Err(error) {
      var items, b := BreakOf(s);
      assert IsBroken(items, b, s, error);
    }
    forall items, b | IsBroken(items, b, s, error) ensures ReadItems(s) == Err(error) {
      BreakFails(b);
      ItemsThenFails(items, BreakBytes(b));
    }
  }
}
