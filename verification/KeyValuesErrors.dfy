/**
  Exactly what the KeyValues parser rejects, and with which error.  A broken document is one that is
  well formed up to the place where it cannot go on; every rejected text is one, and gets its error.
 */
module KeyValuesErrors {
  import opened Prelude
  import opened KeyValues
  import opened KeyValuesPrinting
  import opened KeyValuesReading

  /** A quoted token that the file ends in, perhaps just after a backslash. */
  datatype OpenQuote = OpenQuote(units: seq<Unit>, half: bool)

  /** What stands where the next entry of a block, or of the file, cannot be read. */
  datatype Break =
    | Unclosed(end: bytes)
    | KeyIsBrace(rest: bytes)
    | KeyIsOpen(quoted: OpenQuote)
    | NoValue(key: Token, after: Gap, end: bytes)
    | ValueIsBrace(key: Token, after: Gap, rest: bytes)
    | ValueIsOpen(key: Token, after: Gap, quoted: OpenQuote)
    | Within(key: Token, after: Gap, afterOpen: Gap, entries: seq<Entry>, inner: Break)

  function OpenBytes(q: OpenQuote): bytes {
    [34] + UnitsThen(q.units, if q.half then [92] else [])
  }

  function BreakBytes(b: Break): bytes {
    match b
    case Unclosed(end) => end
    case KeyIsBrace(rest) => [123] + rest
    case KeyIsOpen(quoted) => OpenBytes(quoted)
    case NoValue(key, after, end) => TokenThen(key, after, end)
    case ValueIsBrace(key, after, rest) => TokenThen(key, after, [125] + rest)
    case ValueIsOpen(key, after, quoted) => TokenThen(key, after, OpenBytes(quoted))
    case Within(key, after, afterOpen, entries, inner) =>
      TokenThen(key, after, [123] + GapThen(afterOpen, DocThen(entries, BreakBytes(inner))))
  }

  function BreakError(b: Break): Error {
    match b
    case Unclosed(_) => EOFInObject
    case KeyIsBrace(_) => UnexpectedCharacter
    case KeyIsOpen(_) => Unterminated
    case NoValue(key, _, _) => MissingValue(key.Text())
    case ValueIsBrace(_, _, _) => UnexpectedCharacter
    case ValueIsOpen(_, _, _) => Unterminated
    case Within(_, _, _, _, inner) => BreakError(inner)
  }

  /** Only a block can be left unclosed (`inBlock`). */
  predicate ValidBreak(b: Break, inBlock: bool) {
    match b
    case Unclosed(end) => inBlock && IsEnd(end)
    case KeyIsBrace(_) => true
    case KeyIsOpen(quoted) => ValidUnits(quoted.units)
    case NoValue(key, after, end) => IsEnd(end) && ValidToken(key, after, end == [])
    case ValueIsBrace(key, after, _) => ValidToken(key, after, true)
    case ValueIsOpen(key, after, quoted) => ValidUnits(quoted.units) && ValidToken(key, after, false)
    case Within(key, after, afterOpen, entries, inner) =>
      && ValidToken(key, after, true) && ValidGap(afterOpen)
      && ValidDoc(entries, Ends(BreakBytes(inner))) && ValidBreak(inner, true)
  }

  // ----- broken documents are rejected -----

  lemma {:induction false} OpenQuoteFails(units: seq<Unit>, half: bool)
    requires ValidUnits(units)
    ensures ReadQuoted(UnitsThen(units, if half then [BACKSLASH] else [])) == Err(Unterminated)
  {
    var tail := if half then [BACKSLASH] else [];
    var s := UnitsThen(units, tail);
    if units == [] {
      assert half ==> s[1..] == [];
    } else {
      OpenQuoteFails(units[1..], half);
      var more := UnitsThen(units[1..], tail);
      match units[0]
      case Plain(_) =>
        assert s[1..] == more;
      case Escaped(_) =>
        assert s[2..] == more;
    }
  }

  lemma OpenTokenFails(q: OpenQuote)
    requires ValidUnits(q.units)
    ensures var s := OpenBytes(q); Skip(s) == s && s[0] == QUOTE && ReadToken(s) == Err(Unterminated)
  {
    OpenQuoteFails(q.units, q.half);
    assert OpenBytes(q)[1..] == UnitsThen(q.units, if q.half then [BACKSLASH] else []);
  }

  /** After a key that can be read, the entry depends only on what stands where its value should. */
  lemma KeyIsRead(key: Token, after: Gap, tail: bytes)
    requires ValidToken(key, after, Ends(tail))
    ensures var s := TokenThen(key, after, tail);
      && s != [] && s[0] != CLOSE && Skip(s) == s
      && ReadToken(s) == Ok((key.Text(), GapThen(after, tail)))
      && Skip(GapThen(after, tail)) == Skip(tail)
  {
    TokenStarts(key, after, tail);
    ReadTokenBack(key, after, tail);
    SkipOverGap(after, tail);
  }

  lemma {:induction false} BreakFails(b: Break, requireClose: bool, out: Object)
    requires ValidBreak(b, requireClose)
    ensures ParseObject(BreakBytes(b), requireClose, out) == Err(BreakError(b))
  {
    match b
    case Unclosed(end) =>
      EndIsSkipped(end);
    case KeyIsBrace(_) =>
    case KeyIsOpen(quoted) =>
      OpenTokenFails(quoted);
    case NoValue(key, after, end) =>
      EndIsSkipped(end);
      KeyIsRead(key, after, end);
    case ValueIsBrace(key, after, rest) =>
      KeyIsRead(key, after, [CLOSE] + rest);
    case ValueIsOpen(key, after, quoted) =>
      OpenTokenFails(quoted);
      KeyIsRead(key, after, OpenBytes(quoted));
    case Within(key, after, afterOpen, entries, inner) =>
      var body := DocThen(entries, BreakBytes(inner));
      var s1 := [OPEN] + GapThen(afterOpen, body);
      KeyIsRead(key, after, s1);
      assert Skip(s1) == s1 && s1[1..] == GapThen(afterOpen, body);
      ParseAfterGap(afterOpen, body, true, map[]);
      ParseDocBack(entries, BreakBytes(inner), true, map[]);
      BreakFails(inner, true, Denote(entries, map[]));
  }

  // ----- what is rejected is a broken document -----

  lemma {:induction false} OpenQuoteOf(s: bytes) returns (q: OpenQuote)
    requires ReadQuoted(s).Err?
    ensures ValidUnits(q.units) && [QUOTE] + s == OpenBytes(q) && ReadQuoted(s) == Err(Unterminated)
    decreases |s|
  {
    if s == [] {
      q := OpenQuote([], false);
    } else if s == [BACKSLASH] {
      q := OpenQuote([], true);
      assert s[1..] == [];
    } else if s[0] == BACKSLASH {
      q := OpenQuoteOf(s[2..]);
      assert s == [BACKSLASH, s[1]] + s[2..] && s[2..] == OpenBytes(q)[1..];
      q := OpenQuote([Escaped(s[1])] + q.units, q.half);
    } else {
      q := OpenQuoteOf(s[1..]);
      assert s == [s[0]] + s[1..] && s[1..] == OpenBytes(q)[1..];
      q := OpenQuote([Plain(s[0])] + q.units, q.half);
    }
  }

  lemma {:induction false} EntryBreakOf(s: bytes, requireClose: bool, out: Object) returns (b: Break)
    requires Skip(s) == s && s != [] && s[0] != CLOSE && ParseEntry(s, out).Err?
    ensures ValidBreak(b, requireClose) && s == BreakBytes(b) && ParseEntry(s, out) == Err(BreakError(b))
    decreases |s|, 0
  {
    if ReadToken(s).Err? {
      assert s == [s[0]] + s[1..];
      if s[0] == QUOTE {
        var q := OpenQuoteOf(s[1..]);
        b := KeyIsOpen(q);
      } else {
        b := KeyIsBrace(s[1..]);
      }
    } else {
      var key, after, tail := TokenOf(s);
      var r := ReadToken(s).value.1;
      SkipTwice(r);
      if Skip(r) == [] {
        b := NoValue(key, after, tail);
      } else {
        b := ValueBreakOf(s, key, after, tail, requireClose, out);
      }
    }
  }

  lemma {:induction false} ValueBreakOf(s: bytes, key: Token, after: Gap, tail: bytes, requireClose: bool, out: Object)
    returns (b: Break)
    requires ValidToken(key, after, Ends(tail)) && s == TokenThen(key, after, tail) && |tail| < |s|
    requires tail != [] && Skip(tail) == tail
    requires ReadToken(s) == Ok((key.Text(), GapThen(after, tail))) && Skip(GapThen(after, tail)) == tail
    requires ParseEntry(s, out).Err?
    ensures ValidBreak(b, requireClose) && s == BreakBytes(b) && ParseEntry(s, out) == Err(BreakError(b))
    decreases |tail|, 2
  {
    assert tail == [tail[0]] + tail[1..];
    if tail[0] == OPEN {
      var afterOpen, start := GapOf(tail[1..]);
      ParsePastGap(tail[1..], start, true, map[]);
      SkipTwice(tail[1..]);
      var entries, inner := BreakOf(start, true, map[]);
      b := Within(key, after, afterOpen, entries, inner);
    } else if tail[0] == QUOTE {
      var q := OpenQuoteOf(tail[1..]);
      b := ValueIsOpen(key, after, q);
    } else {
      b := ValueIsBrace(key, after, tail[1..]);
    }
  }

  lemma {:induction false} BreakOf(s: bytes, requireClose: bool, out: Object) returns (es: seq<Entry>, b: Break)
    requires (Skip(s) == s || IsEnd(s)) && ParseObject(s, requireClose, out).Err?
    ensures ValidDoc(es, Ends(BreakBytes(b))) && s == DocThen(es, BreakBytes(b))
    ensures ValidBreak(b, requireClose) && ParseObject(s, requireClose, out) == Err(BreakError(b))
    decreases |s|, 1
  {
    if Skip(s) != s {
      EndIsSkipped(s);
    }
    if Skip(s) == [] {
      es, b := [], Unclosed(s);
    } else if ParseEntry(s, out).Err? {
      b := EntryBreakOf(s, requireClose, out);
      es := [];
    } else {
      var e, next := EntryOf(s, out);
      var (out', r) := ParseEntry(s, out).value;
      ParsePastGap(r, next, requireClose, out');
      SkipTwice(r);
      var more;
      more, b := BreakOf(next, requireClose, out');
      es := [e] + more;
      MoreEntries(e, more, BreakBytes(b));
    }
  }

  // ----- whole files -----

  datatype BrokenFile = BrokenFile(bom: bool, before: Gap, entries: seq<Entry>, broken: Break)

  function BrokenText(f: BrokenFile): bytes {
    GapThen(f.before, DocThen(f.entries, BreakBytes(f.broken)))
  }

  predicate IsBroken(f: BrokenFile, s: bytes, error: Error) {
    && ValidGap(f.before) && ValidDoc(f.entries, Ends(BreakBytes(f.broken))) && ValidBreak(f.broken, false)
    && s == (if f.bom then [0xEF, 0xBB, 0xBF] else []) + BrokenText(f)
    && (f.bom || !([0xEF, 0xBB, 0xBF] <= BrokenText(f)))
    && error == BreakError(f.broken)
  }

  lemma BrokenFails(f: BrokenFile, s: bytes, error: Error)
    requires IsBroken(f, s, error)
    ensures Parse(s) == Err(error)
  {
    var tail := BreakBytes(f.broken);
    assert TrimBOM(s) == BrokenText(f);
    ParseAfterGap(f.before, DocThen(f.entries, tail), false, map[]);
    ParseDocBack(f.entries, tail, false, map[]);
    BreakFails(f.broken, false, Denote(f.entries, map[]));
  }

  lemma BrokenOf(s: bytes) returns (f: BrokenFile)
    requires Parse(s).Err?
    ensures IsBroken(f, s, Parse(s).error)
  {
    var bom := BOM <= s;
    var text := TrimBOM(s);
    assert bom ==> s == BOM + text;
    var before, start := GapOf(text);
    ParsePastGap(text, start, false, map[]);
    SkipTwice(text);
    var entries, b := BreakOf(start, false, map[]);
    f := BrokenFile(bom, before, entries, b);
    assert BrokenText(f) == text;
  }

  /** Parsing fails with an error exactly if the text is a broken document with that error. */
  lemma ErrorIff(s: bytes, error: Error)
    ensures Parse(s) == Err(error) <==> exists f :: IsBroken(f, s, error)
  {
    if Parse(s) == Err(error) {
      var f := BrokenOf(s);
      assert IsBroken(f, s, error);
    }
    forall f | IsBroken(f, s, error) ensures Parse(s) == Err(error) {
      BrokenFails(f, s, error);
    }
  }

  /** The error of a file that ends where a token is expected is never returned. */
  lemma NoEOFInToken(s: bytes)
    ensures Parse(s) != Err(EOFInToken)
  {
    if Parse(s) == Err(EOFInToken) {
      var f := BrokenOf(s);
      NotEOFInToken(f.broken);
    }
  }

  lemma {:induction false} NotEOFInToken(b: Break)
    ensures BreakError(b) != EOFInToken
  {
    if b.Within? {
      NotEOFInToken(b.inner);
    }
  }
}
