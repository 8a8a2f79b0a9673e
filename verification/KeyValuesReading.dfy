/**
  Exactly what the KeyValues parser accepts: the printed files, in every layout, and nothing else.
  Each part that is read is shown to be a printing of what was read.
 */
module KeyValuesReading {
  import opened Prelude
  import opened KeyValues
  import opened KeyValuesPrinting

  /** A comment with no line end after it, or nothing: what may still be skipped at the end of a file. */
  predicate IsEnd(e: bytes) {
    e == [] || ([47, 47] <= e && 10 !in e[2..])
  }

  lemma {:induction false} LineOf(s: bytes) returns (text: bytes)
    ensures NEWLINE !in text && s == text + SkipLine(s)
    ensures SkipLine(s) == [] || SkipLine(s)[0] == NEWLINE
  {
    if s == [] || s[0] == NEWLINE {
      text := [];
    } else {
      var more := LineOf(s[1..]);
      text := [s[0]] + more;
      assert s == [s[0]] + (more + SkipLine(s[1..]));
    }
  }

  /** What is left once a gap is taken: nothing more is skipped, or only the end of the file is. */
  predicate AfterGap(s: bytes, rest: bytes) {
    rest == Skip(s) || (Skip(s) == [] && IsEnd(rest))
  }

  lemma CommentTaken(s: bytes, text: bytes, more: Gap, rest: bytes)
    requires [SLASH, SLASH] <= s && NEWLINE !in text && s[2..] == text + ([NEWLINE] + GapThen(more, rest))
    requires ValidGap(more) && AfterGap(GapThen(more, rest), rest)
    ensures var g := [Comment(text)] + more; ValidGap(g) && s == GapThen(g, rest) && AfterGap(s, rest)
  {
    var tail := GapThen(more, rest);
    assert s == [SLASH, SLASH] + s[2..] && ([Comment(text)] + more)[1..] == more;
    SkipLineOverText(text, tail);
    assert ([NEWLINE] + tail)[1..] == tail;
    assert Skip(s) == Skip([NEWLINE] + tail) == Skip(tail);
  }

  lemma SpaceTaken(s: bytes, more: Gap, rest: bytes)
    requires s != [] && IsSpace(s[0]) && s[1..] == GapThen(more, rest) && ValidGap(more) && AfterGap(s[1..], rest)
    ensures var g := [Space(s[0])] + more; ValidGap(g) && s == GapThen(g, rest) && AfterGap(s, rest)
  {
    assert s == [s[0]] + s[1..] && ([Space(s[0])] + more)[1..] == more;
  }

  /** What is skipped is a gap, and at the end of the file perhaps a last comment. */
  lemma {:induction false} GapOf(s: bytes) returns (g: Gap, rest: bytes)
    ensures ValidGap(g) && s == GapThen(g, rest) && |rest| <= |s| && AfterGap(s, rest)
    decreases |s|
  {
    if s != [] && s[0] == SLASH && |s| > 1 && s[1] == SLASH {
      var text := LineOf(s[2..]);
      var line := SkipLine(s[2..]);
      if line == [] {
        g, rest := [], s;
        assert s[2..] == text;
      } else {
        var more;
        more, rest := GapOf(line[1..]);
        assert line == [NEWLINE] + line[1..];
        CommentTaken(s, text, more, rest);
        g := [Comment(text)] + more;
      }
    } else if s != [] && IsSpace(s[0]) {
      var more;
      more, rest := GapOf(s[1..]);
      SpaceTaken(s, more, rest);
      g := [Space(s[0])] + more;
    } else {
      g, rest := [], s;
    }
  }

  lemma {:induction false} UnitsOf(s: bytes) returns (units: seq<Unit>)
    requires ReadQuoted(s).Ok?
    ensures var (text, rest) := ReadQuoted(s).value;
      ValidUnits(units) && text == Meaning(units) && s == UnitsThen(units, [QUOTE] + rest)
    decreases |s|
  {
    if s[0] == QUOTE {
      units := [];
    } else if s[0] == BACKSLASH && |s| > 1 {
      units := UnitsOf(s[2..]);
      units := [Escaped(s[1])] + units;
      assert s == [BACKSLASH, s[1]] + s[2..];
    } else {
      units := UnitsOf(s[1..]);
      units := [Plain(s[0])] + units;
      assert s == [s[0]] + s[1..];
    }
  }

  lemma {:induction false} SkipTwice(s: bytes)
    ensures Skip(Skip(s)) == Skip(s)
    decreases |s|
  {
    if s != [] && s[0] == SLASH && |s| > 1 && s[1] == SLASH {
      SkipTwice(SkipLine(s[2..]));
    } else if s != [] && IsSpace(s[0]) {
      SkipTwice(s[1..]);
    }
  }

  lemma EndIsSkipped(e: bytes)
    requires IsEnd(e)
    ensures Skip(e) == []
  {
    if e != [] {
      SkipLastLine(e[2..]);
    }
  }

  lemma SameAfterGap(s: bytes, rest: bytes)
    requires AfterGap(s, rest)
    ensures Skip(rest) == Skip(s)
  {
    SkipTwice(s);
    if rest != Skip(s) {
      EndIsSkipped(rest);
    }
  }

  lemma {:induction false} BareLengthEnds(s: bytes)
    ensures var n := BareLength(s);
      && (forall i :: 0 <= i < n ==> !IsDelimiter(s[i]))
      && (n == |s| || IsDelimiter(s[n]))
  {
    if s == [] || IsDelimiter(s[0]) {
    } else {
      BareLengthEnds(s[1..]);
      var n := BareLength(s[1..]);
      assert forall i :: 1 <= i < n + 1 ==> s[i] == s[1..][i - 1];
    }
  }

  lemma TokenOf(s: bytes) returns (t: Token, after: Gap, tail: bytes)
    requires Skip(s) == s && ReadToken(s).Ok?
    ensures var (text, rest) := ReadToken(s).value;
      text == t.Text() && rest == GapThen(after, tail) && AfterGap(rest, tail)
    ensures ValidToken(t, after, Ends(tail)) && s == TokenThen(t, after, tail) && |tail| < |s|
  {
    var (_, rest) := ReadToken(s).value;
    after, tail := GapOf(rest);
    if s[0] == QUOTE {
      var units := UnitsOf(s[1..]);
      t := Quoted(units);
      assert s == [QUOTE] + s[1..];
    } else {
      var n := BareLength(s);
      BareLengthEnds(s);
      t := Bare(s[..n]);
      assert s == s[..n] + rest;
    }
  }

  lemma ParsePastGap(s: bytes, rest: bytes, requireClose: bool, out: Object)
    requires AfterGap(s, rest)
    ensures ParseObject(s, requireClose, out) == ParseObject(rest, requireClose, out)
  {
    SameAfterGap(s, rest);
  }

  lemma {:induction false} EntryOf(s: bytes, out: Object) returns (e: Entry, tail: bytes)
    requires Skip(s) == s && ParseEntry(s, out).Ok?
    ensures ValidEntry(e, Ends(tail)) && s == EntryThen(e, tail) && |tail| < |s|
    ensures var (out', rest) := ParseEntry(s, out).value; out' == DenoteEntry(e, out) && AfterGap(rest, tail)
    decreases |s|, 0
  {
    var key, afterKey, r1 := TokenOf(s);
    var r := ReadToken(s).value.1;
    SameAfterGap(r, r1);
    SkipTwice(r);
    assert r1 == Skip(r);
    if r1[0] == OPEN {
      var afterOpen, body, afterClose;
      assert r1 == [OPEN] + r1[1..];
      afterOpen, body, afterClose, tail := BodyOf(r1[1..]);
      e := Block(key, afterKey, afterOpen, body, afterClose);
    } else {
      e, tail := LeafOf(s, key, afterKey, r1, out);
    }
  }

  lemma LeafOf(s: bytes, key: Token, afterKey: Gap, r1: bytes, out: Object) returns (e: Entry, tail: bytes)
    requires ValidToken(key, afterKey, Ends(r1)) && s == TokenThen(key, afterKey, r1) && |r1| < |s|
    requires r1 != [] && r1[0] != OPEN && Skip(r1) == r1
    requires ReadToken(s) == Ok((key.Text(), GapThen(afterKey, r1))) && Skip(GapThen(afterKey, r1)) == r1
    requires ParseEntry(s, out).Ok?
    ensures ValidEntry(e, Ends(tail)) && s == EntryThen(e, tail) && |tail| < |s|
    ensures var (out', rest) := ParseEntry(s, out).value; out' == DenoteEntry(e, out) && AfterGap(rest, tail)
  {
    var value, afterValue;
    value, afterValue, tail := TokenOf(r1);
    e := Leaf(key, afterKey, value, afterValue);
  }

  /** The body of a block, from just after its opening brace. */
  lemma {:induction false} BodyOf(s: bytes) returns (afterOpen: Gap, body: seq<Entry>, afterClose: Gap, tail: bytes)
    requires ParseObject(s, true, map[]).Ok?
    ensures ValidGap(afterOpen) && ValidDoc(body, true) && ValidGap(afterClose) && |tail| < |s|
    ensures s == GapThen(afterOpen, DocThen(body, [CLOSE] + GapThen(afterClose, tail)))
    ensures var (child, rest) := ParseObject(s, true, map[]).value; child == Denote(body, map[]) && AfterGap(rest, tail)
    decreases |s|, 2
  {
    var start, close;
    afterOpen, start := GapOf(s);
    ParsePastGap(s, start, true, map[]);
    SkipTwice(s);
    body, close := DocOf(start, true, map[]);
    afterClose, tail := GapOf(ParseObject(s, true, map[]).value.1);
  }

  lemma {:induction false} DocOf(s: bytes, requireClose: bool, out: Object) returns (es: seq<Entry>, tail: bytes)
    requires (Skip(s) == s || IsEnd(s)) && ParseObject(s, requireClose, out).Ok?
    ensures ValidDoc(es, Ends(tail)) && s == DocThen(es, tail)
    ensures var (out', rest) := ParseObject(s, requireClose, out).value;
      && out' == Denote(es, out)
      && (tail == [CLOSE] + rest || (!requireClose && rest == [] && IsEnd(tail)))
    decreases |s|, 1
  {
    if Skip(s) != s {
      EndIsSkipped(s);
    }
    if Skip(s) == [] || s[0] == CLOSE {
      es, tail := [], s;
    } else {
      var e, next := EntryOf(s, out);
      var (out', r) := ParseEntry(s, out).value;
      ParsePastGap(r, next, requireClose, out');
      SkipTwice(r);
      var more;
      more, tail := DocOf(next, requireClose, out');
      es := [e] + more;
      MoreEntries(e, more, tail);
    }
  }

  lemma MoreEntries(e: Entry, more: seq<Entry>, tail: bytes)
    requires ValidDoc(more, Ends(tail)) && ValidEntry(e, Ends(DocThen(more, tail)))
    ensures ValidDoc([e] + more, Ends(tail)) && DocThen([e] + more, tail) == EntryThen(e, DocThen(more, tail))
    ensures forall out :: Denote([e] + more, out) == Denote(more, DenoteEntry(e, out))
  {
    if more != [] {
      FewerEnds(more[0], Ends(tail) && |more| == 1, Ends(DocThen(more[1..], tail)));
      EntryStarts(more[0], DocThen(more[1..], tail));
    }
    assert ([e] + more)[1..] == more;
  }

  // ----- whole files -----

  lemma EndingOf(tail: bytes, rest: bytes) returns (e: Ending)
    requires tail == [CLOSE] + rest || IsEnd(tail)
    ensures EndingBytes(e) == tail && (e.LastComment? ==> NEWLINE !in e.text)
    ensures Ends(tail) <==> !e.LastComment?
  {
    e := if tail == [] then Nothing else if tail[0] == CLOSE then Stray(tail[1..]) else LastComment(tail[2..]);
  }

  lemma TextOf(s: bytes) returns (before: Gap, entries: seq<Entry>, ending: Ending)
    requires ParseObject(s, false, map[]).Ok?
    ensures ValidGap(before) && ValidDoc(entries, !ending.LastComment?)
    ensures ending.LastComment? ==> NEWLINE !in ending.text
    ensures s == GapThen(before, DocThen(entries, EndingBytes(ending)))
    ensures ParseObject(s, false, map[]).value.0 == Denote(entries, map[])
  {
    var start, tail;
    before, start := GapOf(s);
    ParsePastGap(s, start, false, map[]);
    SkipTwice(s);
    entries, tail := DocOf(start, false, map[]);
    ending := EndingOf(tail, ParseObject(start, false, map[]).value.1);
  }

  lemma FileOf(s: bytes) returns (f: File)
    requires Parse(s).Ok?
    ensures ValidFile(f) && Print(f) == s && Parse(s) == Ok(Denote(f.entries, map[]))
  {
    var text := TrimBOM(s);
    var before, entries, ending := TextOf(text);
    f := File(BOM <= s, before, entries, ending);
    assert Text(f) == text;
  }

  predicate IsPrinting(f: File, s: bytes, tree: Object) {
    ValidFile(f) && Print(f) == s && Denote(f.entries, map[]) == tree
  }

  /** Parsing a text gives a tree exactly if the text is a printing of a document that denotes the tree. */
  lemma ParseIff(s: bytes, tree: Object)
    ensures Parse(s) == Ok(tree) <==> exists f :: IsPrinting(f, s, tree)
  {
    if Parse(s) == Ok(tree) {
      var f := FileOf(s);
      assert IsPrinting(f, s, tree);
    }
    forall f | IsPrinting(f, s, tree) ensures Parse(s) == Ok(tree) {
      ParsePrinted(f);
    }
  }
}
