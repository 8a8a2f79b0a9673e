/**
  The text KeyValues parser: a recursive-descent parser over the bytes of a Go string.

  The functions give the parser's meaning on the bytes still to be read; the class `Parser`
  is the cursor that the program moves, proved equal to them.
 */
module KeyValues {
  import opened Prelude

  const TAB: byte := 9
  const NEWLINE: byte := 10
  const RETURN: byte := 13
  const SPACE: byte := 32
  const QUOTE: byte := 34
  const SLASH: byte := 47
  const BACKSLASH: byte := 92
  const LETTER_N: byte := 110
  const LETTER_T: byte := 116
  const OPEN: byte := 123
  const CLOSE: byte := 125
  const BOM: bytes := [0xEF, 0xBB, 0xBF]

  /** A leaf has no children; a block has the empty value. */
  datatype Node = Node(value: bytes, children: map<bytes, Node>)
  type Object = map<bytes, Node>

  datatype Error = EOFInObject | MissingValue(key: bytes) | EOFInToken | UnexpectedCharacter | Unterminated

  predicate IsSpace(b: byte) {
    b == SPACE || b == TAB || b == NEWLINE || b == RETURN
  }

  predicate IsDelimiter(b: byte) {
    IsSpace(b) || b == OPEN || b == CLOSE
  }

  // ----- what the parser computes -----

  function SkipLine(s: bytes): (rest: bytes)
    ensures |rest| <= |s|
  {
    if s == [] || s[0] == NEWLINE then s else SkipLine(s[1..])
  }

  function Skip(s: bytes): (rest: bytes)
    ensures |rest| <= |s|
    decreases |s|
  {
    if s == [] then s
    else if s[0] == SLASH && |s| > 1 && s[1] == SLASH then Skip(SkipLine(s[2..]))
    else if IsSpace(s[0]) then Skip(s[1..])
    else s
  }

  function BareLength(s: bytes): (n: nat)
    ensures n <= |s|
  {
    if s == [] || IsDelimiter(s[0]) then 0 else 1 + BareLength(s[1..])
  }

  function Unescape(b: byte): byte {
    if b == LETTER_N then NEWLINE else if b == LETTER_T then TAB else b
  }

  /** Reads a quoted token from just after its opening quote. */
  function ReadQuoted(s: bytes): (r: Result<(bytes, bytes), Error>)
    ensures r.Ok? ==> |r.value.1| < |s|
    decreases |s|
  {
    if s == [] then Err(Unterminated)
    else if s[0] == QUOTE then Ok(([], s[1..]))
    else if s[0] == BACKSLASH && |s| > 1 then
      var (text, rest) :- ReadQuoted(s[2..]);
      Ok(([Unescape(s[1])] + text, rest))
    else
      var (text, rest) :- ReadQuoted(s[1..]);
      Ok(([s[0]] + text, rest))
  }

  function ReadToken(s: bytes): (r: Result<(bytes, bytes), Error>)
    ensures r.Ok? ==> |r.value.1| < |s|
  {
    var t := Skip(s);
    if t == [] then Err(EOFInToken)
    else if t[0] == QUOTE then ReadQuoted(t[1..])
    else
      var n := BareLength(t);
      if n == 0 then Err(UnexpectedCharacter) else Ok((t[..n], t[n..]))
  }

  /** Later keys win; two blocks that both have children are merged. */
  function Merge(base: Object, next: Node): Object
    decreases next
  {
    map k | k in base.Keys + next.children.Keys ::
      if k !in next.children then base[k]
      else if k in base && base[k].children != map[] && next.children[k].children != map[] then
        Node([], Merge(base[k].children, next.children[k]))
      else next.children[k]
  }

  function AddBlock(out: Object, key: bytes, child: Object): Object {
    out[key := Node([], if key in out && out[key].children != map[]
                        then Merge(out[key].children, Node([], child)) else child)]
  }

  /** Reads one key with its value or block from `s`, which starts at the key. */
  function ParseEntry(s: bytes, out: Object): (r: Result<(Object, bytes), Error>)
    ensures r.Ok? ==> |r.value.1| < |s|
    decreases |s|, 0
  {
    var (key, r) :- ReadToken(s);
    var r1 := Skip(r);
    if r1 == [] then Err(MissingValue(key))
    else if r1[0] == OPEN then
      var (child, r2) :- ParseObject(r1[1..], true, map[]);
      Ok((AddBlock(out, key, child), r2))
    else
      var (value, r2) :- ReadToken(r1);
      Ok((out[key := Node(value, map[])], r2))
  }

  /** Reads entries into `out` up to a closing brace, or up to the end if none is required. */
  function ParseObject(s: bytes, requireClose: bool, out: Object): (r: Result<(Object, bytes), Error>)
    ensures r.Ok? ==> |r.value.1| <= |s| && (requireClose ==> |r.value.1| < |s|)
    decreases |s|, 1
  {
    var t := Skip(s);
    if t == [] then (if requireClose then Err(EOFInObject) else Ok((out, [])))
    else if t[0] == CLOSE then Ok((out, t[1..]))
    else
      var (out', r) :- ParseEntry(t, out);
      ParseObject(r, requireClose, out')
  }

  function TrimBOM(s: bytes): bytes {
    if BOM <= s then s[|BOM|..] else s
  }

  function Parse(s: bytes): Result<Object, Error> {
    var (root, _) :- ParseObject(TrimBOM(s), false, map[]);
    Ok(root)
  }

  // ----- the cursor -----

  predicate Continuation(s: bytes, i: nat, low: byte, high: byte) {
    i < |s| && low <= s[i] <= high
  }

  /** The width of the rune utf8.DecodeRuneInString finds: 1 for ASCII and for invalid encodings. */
  function RuneSize(s: bytes): (n: nat)
    requires s != []
    ensures 1 <= n <= |s| && forall i :: 1 <= i < n ==> s[i] >= 0x80
    ensures s[0] < 0x80 ==> n == 1
  {
    var b := s[0];
    if 0xC2 <= b <= 0xDF && Continuation(s, 1, 0x80, 0xBF) then 2
    else if 0xE0 <= b <= 0xEF &&
            Continuation(s, 1, if b == 0xE0 then 0xA0 else 0x80, if b == 0xED then 0x9F else 0xBF) &&
            Continuation(s, 2, 0x80, 0xBF) then 3
    else if 0xF0 <= b <= 0xF4 &&
            Continuation(s, 1, if b == 0xF0 then 0x90 else 0x80, if b == 0xF4 then 0x8F else 0xBF) &&
            Continuation(s, 2, 0x80, 0xBF) && Continuation(s, 3, 0x80, 0xBF) then 4
    else 1
  }

  lemma {:induction false} BareLengthSkips(s: bytes, n: nat)
    requires n <= |s| && forall i :: 0 <= i < n ==> !IsDelimiter(s[i])
    ensures BareLength(s) == n + BareLength(s[n..])
  {
    if n > 0 {
      BareLengthSkips(s[1..], n - 1);
      assert s[1..][n - 1..] == s[n..];
    } else {
      assert s[0..] == s;
    }
  }

  function Prepend(text: bytes, r: Result<(bytes, bytes), Error>): Result<(bytes, bytes), Error> {
    if r.Ok? then Ok((text + r.value.0, r.value.1)) else r
  }

  lemma PrependNothing(r: Result<(bytes, bytes), Error>)
    ensures Prepend([], r) == r
  {
    if r.Ok? {
      assert [] + r.value.0 == r.value.0;
    }
  }

  lemma PrependOne(text: bytes, b: byte, r: Result<(bytes, bytes), Error>)
    ensures Prepend(text + [b], r) == Prepend(text, Prepend([b], r))
  {
    if r.Ok? {
      assert text + [b] + r.value.0 == text + ([b] + r.value.0);
    }
  }

  class Parser {
    const input: bytes
    var pos: nat

    constructor (input: bytes)
      ensures Valid() && this.input == input && pos == 0
    {
      this.input := input;
      pos := 0;
    }

    ghost predicate Valid()
      reads this
    {
      pos <= |input|
    }

    ghost function Rest(): bytes
      reads this
      requires Valid()
    {
      input[pos..]
    }

    /** The cursor has read `spec`: the same value and the same rest, or the same error. */
    ghost predicate Reads<T>(spec: Result<(T, bytes), Error>, r: Result<T, Error>)
      reads this
      requires Valid()
    {
      if r.Ok? then spec == Ok((r.value, Rest())) else spec == Err(r.error)
    }

    method SkipToLineEnd()
      requires Valid()
      modifies this
      ensures Valid() && old(pos) <= pos && Rest() == SkipLine(old(Rest()))
    {
      while pos < |input| && input[pos] != NEWLINE
        invariant Valid() && old(pos) <= pos && SkipLine(Rest()) == SkipLine(old(Rest()))
      {
        assert Rest()[1..] == input[pos + 1..];
        pos := pos + 1;
      }
    }

    method SkipSpaceAndComments()
      requires Valid()
      modifies this
      ensures Valid() && old(pos) <= pos && Rest() == Skip(old(Rest()))
    {
      while pos < |input|
        invariant Valid() && old(pos) <= pos && Skip(Rest()) == Skip(old(Rest()))
        decreases |input| - pos
      {
        ghost var before := Rest();
        if input[pos] == SLASH && pos + 1 < |input| && input[pos + 1] == SLASH {
          pos := pos + 2;
          assert Rest() == before[2..];
          SkipToLineEnd();
        } else if !IsSpace(input[pos]) {
          return;
        } else {
          assert before[1..] == input[pos + 1..];
          pos := pos + RuneSize(input[pos..]);
        }
      }
    }

    method ReadQuotedToken() returns (r: Result<bytes, Error>)
      requires Valid() && pos < |input| && input[pos] == QUOTE
      modifies this
      ensures Valid() && Reads(ReadQuoted(old(Rest())[1..]), r)
    {
      pos := pos + 1;
      ghost var start := Rest();
      var text: bytes := [];
      PrependNothing(ReadQuoted(start));
      while pos < |input|
        invariant Valid()
        invariant ReadQuoted(start) == Prepend(text, ReadQuoted(Rest()))
        decreases |input| - pos
      {
        ghost var s, read := Rest(), text;
        var ch := input[pos];
        pos := pos + 1;
        assert Rest() == s[1..];
        if ch == QUOTE {
          assert text + [] == text;
          return Ok(text);
        }
        if ch == BACKSLASH && pos < |input| {
          var next := input[pos];
          pos := pos + 1;
          assert Rest() == s[2..];
          if next == LETTER_N {
            text := text + [NEWLINE];
          } else if next == LETTER_T {
            text := text + [TAB];
          } else {
            text := text + [next];
          }
          PrependOne(read, Unescape(next), ReadQuoted(Rest()));
        } else {
          text := text + [ch];
          PrependOne(read, ch, ReadQuoted(Rest()));
        }
      }
      return Err(Unterminated);
    }

    method ReadBareToken() returns (r: Result<bytes, Error>)
      requires Valid()
      modifies this
      ensures Valid()
      ensures var t := old(Rest());
        var n := BareLength(t);
        Reads(if n == 0 then Err(UnexpectedCharacter) else Ok((t[..n], t[n..])), r)
    {
      var start := pos;
      ghost var token := Rest();
      while pos < |input| && !IsDelimiter(input[pos])
        invariant start <= pos <= |input| && BareLength(token) == pos - start + BareLength(Rest())
      {
        var size := RuneSize(input[pos..]);
        BareLengthSkips(Rest(), size);
        assert Rest()[size..] == input[pos + size..];
        pos := pos + size;
      }
      if start == pos {
        return Err(UnexpectedCharacter);
      }
      assert token[..pos - start] == input[start..pos] && token[pos - start..] == Rest();
      return Ok(input[start..pos]);
    }

    method ReadOneToken() returns (r: Result<bytes, Error>)
      requires Valid()
      modifies this
      ensures Valid() && Reads(ReadToken(old(Rest())), r)
    {
      SkipSpaceAndComments();
      if pos >= |input| {
        return Err(EOFInToken);
      }
      if input[pos] == QUOTE {
        r := ReadQuotedToken();
      } else {
        r := ReadBareToken();
      }
    }

    method MergeObjects(base: Object, next: Node) returns (out: Object)
      ensures out == Merge(base, next)
      decreases next
    {
      out := base;
      var left := next.children.Keys;
      while left != {}
        invariant left <= next.children.Keys
        invariant out.Keys == base.Keys + (next.children.Keys - left)
        invariant forall k :: k in out ==>
          out[k] == if k in next.children && k !in left then Merge(base, next)[k] else base[k]
        decreases left
      {
        var key :| key in left;
        var value := next.children[key];
        if key in out && out[key].children != map[] && value.children != map[] {
          var merged := MergeObjects(out[key].children, value);
          out := out[key := Node([], merged)];
        } else {
          out := out[key := value];
        }
        left := left - {key};
      }
    }

    method StoreBlock(base: Object, key: bytes, child: Object) returns (out: Object)
      ensures out == AddBlock(base, key, child)
    {
      if key in base && base[key].children != map[] {
        var merged := MergeObjects(base[key].children, Node([], child));
        out := base[key := Node([], merged)];
      } else {
        out := base[key := Node([], child)];
      }
    }

    method ParseOneEntry(out: Object) returns (r: Result<Object, Error>)
      requires Valid()
      modifies this
      ensures Valid() && Reads(ParseEntry(old(Rest()), out), r)
      decreases |input| - pos, 0
    {
      var key := ReadOneToken();
      if key.Err? {
        return Err(key.error);
      }
      SkipSpaceAndComments();
      if pos >= |input| {
        return Err(MissingValue(key.value));
      }
      if input[pos] == OPEN {
        assert Rest()[1..] == input[pos + 1..];
        pos := pos + 1;
        var child := ParseBlock(true);
        if child.Err? {
          return Err(child.error);
        }
        var out' := StoreBlock(out, key.value, child.value);
        return Ok(out');
      }
      var value := ReadOneToken();
      if value.Err? {
        return Err(value.error);
      }
      return Ok(out[key.value := Node(value.value, map[])]);
    }

    method ParseBlock(requireClose: bool) returns (r: Result<Object, Error>)
      requires Valid()
      modifies this
      ensures Valid() && Reads(ParseObject(old(Rest()), requireClose, map[]), r)
      decreases |input| - pos, 1
    {
      var out: Object := map[];
      while true
        invariant Valid() && old(pos) <= pos
        invariant ParseObject(old(Rest()), requireClose, map[]) == ParseObject(Rest(), requireClose, out)
        decreases |input| - pos
      {
        SkipSpaceAndComments();
        if pos >= |input| {
          if requireClose {
            return Err(EOFInObject);
          }
          return Ok(out);
        }
        if input[pos] == CLOSE {
          assert Rest()[1..] == input[pos + 1..];
          pos := pos + 1;
          return Ok(out);
        }
        var entry := ParseOneEntry(out);
        if entry.Err? {
          return Err(entry.error);
        }
        out := entry.value;
      }
    }
  }

  method ParseKeyValues(input: bytes) returns (r: Result<Object, Error>)
    ensures r == Parse(input)
  {
    var parser := new Parser(TrimBOM(input));
    assert parser.input[0..] == parser.input;
    r := parser.ParseBlock(false);
  }
}
