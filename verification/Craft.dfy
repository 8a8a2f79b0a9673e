/** The craft request and response bodies: little-endian numbers, a count, and 64-bit item ids. */
module Craft {
  import opened Prelude
  import opened LittleEndian

  datatype Error = WrongCount | Duplicates | TooShort | SizeMismatch

  /** A 16-bit signed number, and the unsigned one with the same bits. */
  type int16 = n: int | -0x8000 <= n < 0x8000

  type uint64 = n: nat | n < 0x1_0000_0000_0000_0000

  function Unsigned(n: int16): (u: nat)
    ensures u < 0x1_0000
  {
    if n < 0 then n + 0x1_0000 else n
  }

  function Signed(u: nat): int16
    requires u < 0x1_0000
  {
    if u >= 0x8000 then u - 0x1_0000 else u
  }

  function PutAll(ids: seq<uint64>): (b: bytes)
    ensures |b| == 8 * |ids|
  {
    if ids == [] then [] else Put(ids[0], 8) + PutAll(ids[1..])
  }

  function GetAll(b: bytes): seq<uint64>
    requires |b| % 8 == 0
  {
    if b == [] then [] else Widths(); [Get(b[..8])] + GetAll(b[8..])
  }

  predicate Distinct<T(==)>(s: seq<T>) {
    forall i, j :: 0 <= i < j < |s| ==> s[i] != s[j]
  }

  function Request(recipe: int16, ids: seq<uint64>): bytes {
    Put(Unsigned(recipe), 2) + Put(|ids|, 2) + PutAll(ids)
  }

  /** Two bytes of recipe, two of count, and eight for each id, in order. */
  lemma {:induction false} RequestIs(recipe: int16, ids: seq<uint64>, i: nat)
    requires i < |ids|
    ensures var b := Request(recipe, ids);
      && |b| == 4 + 8 * |ids|
      && b[..2] == Put(Unsigned(recipe), 2) && b[2..4] == Put(|ids|, 2)
      && b[4 + 8 * i..12 + 8 * i] == Put(ids[i], 8)
  {
    IDStands(ids, i);
    var b := Request(recipe, ids);
    assert b[4..] == PutAll(ids);
    assert b[4 + 8 * i..12 + 8 * i] == PutAll(ids)[8 * i..8 * i + 8];
  }

  lemma {:induction false} IDStands(ids: seq<uint64>, i: nat)
    requires i < |ids|
    ensures 8 * i + 8 <= |PutAll(ids)| && PutAll(ids)[8 * i..8 * i + 8] == Put(ids[i], 8)
  {
    if i == 0 {
    } else {
      IDStands(ids[1..], i - 1);
      assert PutAll(ids)[8..] == PutAll(ids[1..]);
      assert PutAll(ids)[8 * i..8 * i + 8] == PutAll(ids)[8..][8 * (i - 1)..8 * (i - 1) + 8];
    }
  }

  method HasDuplicateIDs(ids: seq<uint64>) returns (found: bool)
    ensures found <==> !Distinct(ids)
  {
    var seen := {};
    var i := 0;
    while i < |ids|
      invariant 0 <= i <= |ids| && seen == (set x <- ids[..i]) && Distinct(ids[..i])
    {
      if ids[i] in seen {
        var j :| 0 <= j < i && ids[..i][j] == ids[i];
        return true;
      }
      seen := seen + {ids[i]};
      i := i + 1;
    }
    assert ids[..i] == ids;
    return false;
  }

  method PutInto(buf: array<byte>, at: nat, n: nat, width: nat)
    requires at + width <= buf.Length
    modifies buf
    ensures buf[at..at + width] == Put(n, width)
    ensures buf[..at] == old(buf[..at]) && buf[at + width..] == old(buf[at + width..])
  {
    var i, rest := 0, n;
    while i < width
      invariant 0 <= i <= width
      invariant Put(n, width) == buf[at..at + i] + Put(rest, width - i)
      invariant buf[..at] == old(buf[..at]) && buf[at + width..] == old(buf[at + width..])
    {
      buf[at + i] := rest % 0x100;
      rest := rest / 0x100;
      i := i + 1;
      assert buf[at..at + i] == buf[at..at + i - 1] + [buf[at + i - 1]];
    }
    assert Put(rest, 0) == [];
  }

  lemma {:induction false} PutAllConcat(a: seq<uint64>, id: uint64)
    ensures PutAll(a + [id]) == PutAll(a) + Put(id, 8)
  {
    if a == [] {
      assert a + [id] == [id] && [id][1..] == [];
    } else {
      assert (a + [id])[0] == a[0] && (a + [id])[1..] == a[1..] + [id];
      PutAllConcat(a[1..], id);
    }
  }

  method PutIDs(buf: array<byte>, ids: seq<uint64>)
    requires buf.Length == 4 + |ids| * 8
    modifies buf
    ensures buf[..4] == old(buf[..4]) && buf[4..] == PutAll(ids)
  {
    ghost var head := buf[..4];
    var i := 0;
    while i < |ids|
      invariant 0 <= i <= |ids|
      invariant buf[..4 + i * 8] == head + PutAll(ids[..i])
    {
      var at := 4 + i * 8;
      PutInto(buf, at, ids[i], 8);
      PutAllConcat(ids[..i], ids[i]);
      Associate(head, PutAll(ids[..i]), Put(ids[i], 8));
      assert ids[..i + 1] == ids[..i] + [ids[i]];
      assert buf[..at + 8] == buf[..at] + buf[at..at + 8];
      i := i + 1;
    }
    assert ids[..i] == ids && buf[..4 + i * 8] == buf[..] == head + PutAll(ids);
  }

  /** The buffer is written by index. */
  method EncodeCraftRequest(recipe: int16, ids: seq<uint64>) returns (r: Result<bytes, Error>)
    ensures r.Ok? <==> (|ids| == 5 || |ids| == 10) && Distinct(ids)
    ensures r.Ok? ==> r.value == Request(recipe, ids)
  {
    if |ids| != 5 && |ids| != 10 {
      return Err(WrongCount);
    }
    var duplicates := HasDuplicateIDs(ids);
    if duplicates {
      return Err(Duplicates);
    }
    var buf := new byte[4 + |ids| * 8](_ => 0);
    PutInto(buf, 0, Unsigned(recipe), 2);
    PutInto(buf, 2, |ids|, 2);
    assert buf[..4] == buf[..2] + buf[2..4];
    PutIDs(buf, ids);
    assert buf[..] == buf[..4] + buf[4..];
    return Ok(buf[..]);
  }

  // ----- reading back -----

  lemma {:induction false} GetPutAll(ids: seq<uint64>)
    ensures GetAll(PutAll(ids)) == ids
  {
    if ids == [] {
    } else {
      GetPutAll(ids[1..]);
      GetPut(ids[0], 8);
      Widths();
      assert PutAll(ids)[..8] == Put(ids[0], 8) && PutAll(ids)[8..] == PutAll(ids[1..]);
    }
  }

  lemma {:induction false} PutGetAll(b: bytes)
    requires |b| % 8 == 0
    ensures PutAll(GetAll(b)) == b && 8 * |GetAll(b)| == |b|
  {
    if b == [] {
    } else {
      PutGetAll(b[8..]);
      PutGet(b[..8]);
      assert GetAll(b)[1..] == GetAll(b[8..]);
      assert b == b[..8] + b[8..];
    }
  }

  /** A request determines its recipe and its ids. */
  lemma RequestInjective(r: int16, ids: seq<uint64>, r': int16, ids': seq<uint64>)
    requires Request(r, ids) == Request(r', ids')
    ensures r == r' && ids == ids'
  {
    var b := Request(r, ids);
    assert b[..2] == Put(Unsigned(r), 2) == Put(Unsigned(r'), 2);
    assert b[4..] == PutAll(ids) == PutAll(ids');
    Widths();
    GetPut(Unsigned(r), 2);
    GetPut(Unsigned(r'), 2);
    GetPutAll(ids);
    GetPutAll(ids');
  }

  // ----- the response -----

  datatype Response = Response(recipe: int16, gained: seq<uint64>)

  function Count(body: bytes): nat
    requires |body| >= 8
  {
    Get(body[6..8])
  }

  /** The response body: the recipe, four bytes that are not read, the count, and the ids. */
  function ResponseBody(r: Response, unread: bytes): bytes
    requires |unread| == 4
  {
    Put(Unsigned(r.recipe), 2) + unread + Put(|r.gained|, 2) + PutAll(r.gained)
  }

  predicate Accepted(body: bytes) {
    |body| >= 8 && |body| == 8 + Count(body) * 8
  }

  function Decoded(body: bytes): Response
    requires Accepted(body)
  {
    Widths();
    Response(Signed(Get(body[..2])), GetAll(body[8..]))
  }

  lemma GetAllFirst(b: bytes)
    requires |b| >= 8 && |b| % 8 == 0
    ensures Get(b[..8]) < 0x1_0000_0000_0000_0000 && GetAll(b) == [Get(b[..8])] + GetAll(b[8..])
  {}

  method GetIDs(body: bytes, from: nat, count: nat) returns (ids: seq<uint64>)
    requires |body| == from + count * 8
    ensures ids == GetAll(body[from..])
  {
    ids := [];
    ghost var rest := body[from..];
    var i := 0;
    while i < count
      invariant 0 <= i <= count && rest == body[from + i * 8..]
      invariant GetAll(body[from..]) == ids + GetAll(rest)
    {
      GetAllFirst(rest);
      Associate(ids, [Get(rest[..8])], GetAll(rest[8..]));
      assert rest[..8] == body[from + i * 8..from + i * 8 + 8];
      ids := ids + [Get(body[from + i * 8..from + i * 8 + 8])];
      i := i + 1;
      rest := rest[8..];
    }
    assert rest == [] && ids + [] == ids;
  }

  method DecodeCraftResponse(body: bytes) returns (r: Result<Response, Error>)
    ensures r == if |body| < 8 then Err(TooShort)
                 else if !Accepted(body) then Err(SizeMismatch)
                 else Ok(Decoded(body))
  {
    if |body| < 8 {
      return Err(TooShort);
    }
    Widths();
    var recipe := Signed(Get(body[..2]));
    var itemCount := Get(body[6..8]);
    if |body| != 8 + itemCount * 8 {
      return Err(SizeMismatch);
    }
    var ids := GetIDs(body, 8, itemCount);
    return Ok(Response(recipe, ids));
  }

  /** What is accepted is exactly the body of the response that is read. */
  lemma AcceptedIsBody(body: bytes)
    requires Accepted(body)
    ensures body == ResponseBody(Decoded(body), body[2..6])
  {
    Widths();
    var r := Decoded(body);
    PutGet(body[..2]);
    PutGet(body[6..8]);
    PutGetAll(body[8..]);
    assert Unsigned(r.recipe) == Get(body[..2]);
    assert body == body[..2] + body[2..6] + body[6..8] + body[8..];
  }

  /** A response is read back exactly when its count fits 16 bits. */
  lemma BodyIsAcceptedIff(r: Response, unread: bytes)
    requires |unread| == 4
    ensures var body := ResponseBody(r, unread);
      Accepted(body) && Decoded(body) == r <==> |r.gained| < 0x1_0000
  {
    Widths();
    var body := ResponseBody(r, unread);
    GetPut(Unsigned(r.recipe), 2);
    GetPut(|r.gained|, 2);
    GetPutAll(r.gained);
    assert body[..2] == Put(Unsigned(r.recipe), 2);
    assert body[6..8] == Put(|r.gained|, 2);
    assert body[8..] == PutAll(r.gained);
  }
}
