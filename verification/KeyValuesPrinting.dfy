/**
  Printing KeyValues text, as the specification of the parser.  A document fixes everything a
  writer may choose: the order of entries, quoted or bare tokens, and the white space and comments
  between tokens.  Whatever the choices, the parser returns what the document denotes.

  Bytes are written as numbers here: 9 is a tab, 10 a line feed, 13 a carriage return, 32 a space,
  34 a quote, 47 a slash, 92 a backslash, 123 an opening and 125 a closing brace.
 */
module KeyValuesPrinting {
  import opened Prelude
  import opened KeyValues

  datatype GapItem = Space(b: byte) | Comment(text: bytes)
  type Gap = seq<GapItem>

  /** One byte of a quoted token as it is written: by itself, or after a backslash. */
  datatype Unit = Plain(b: byte) | Escaped(b: byte)

  datatype Token = Quoted(units: seq<Unit>) | Bare(word: bytes) {
    /** What the token denotes. */
    function Text(): bytes {
      match this case Quoted(units) => Meaning(units) case Bare(word) => word
    }
  }

  /** After a backslash, the letters n and t stand for a line feed and a tab, and every other byte for itself. */
  function Meaning(units: seq<Unit>): bytes {
    if units == [] then []
    else
      [match units[0]
       case Plain(b) => b
       case Escaped(b) => if b == 110 then 10 else if b == 116 then 9 else b] + Meaning(units[1..])
  }

  /** Each token and brace is followed by a gap. */
  datatype Entry =
    | Leaf(key: Token, afterKey: Gap, value: Token, afterValue: Gap)
    | Block(key: Token, afterKey: Gap, afterOpen: Gap, body: seq<Entry>, afterClose: Gap)

  // ----- what a writer may write -----

  predicate IsBlank(b: byte) {
    b == 9 || b == 10 || b == 13 || b == 32
  }

  predicate EndsBare(b: byte) {
    IsBlank(b) || b == 123 || b == 125
  }

  predicate ValidGap(g: Gap) {
    forall i :: 0 <= i < |g| ==>
      match g[i] case Space(b) => IsBlank(b) case Comment(text) => 10 !in text
  }

  /**
    A bare token must not look like anything else, and white space must end it, or nothing if a brace or
    the end of the file comes next (`ends`).
   */
  predicate ValidToken(t: Token, after: Gap, ends: bool) {
    && ValidGap(after)
    && match t
       case Quoted(units) => ValidUnits(units)
       case Bare(word) =>
         && word != [] && word[0] != 34 && !([47, 47] <= word)
         && (forall i :: 0 <= i < |word| ==> !EndsBare(word[i]))
         && if after == [] then ends else after[0].Space?
  }

  /** Only a quote and a backslash must be written after a backslash. */
  predicate ValidUnits(units: seq<Unit>) {
    forall i :: 0 <= i < |units| ==> units[i].Plain? ==> units[i].b != 34 && units[i].b != 92
  }

  predicate ValidEntry(e: Entry, ends: bool)
    decreases e, 1
  {
    match e
    case Leaf(key, afterKey, value, after) => ValidToken(key, afterKey, false) && ValidToken(value, after, ends)
    case Block(key, afterKey, afterOpen, body, afterClose) =>
      ValidToken(key, afterKey, true) && ValidGap(afterOpen) && ValidGap(afterClose) && ValidDoc(body, true)
  }

  /** `ends` says that a brace or the end of the file comes right after the last entry. */
  predicate ValidDoc(es: seq<Entry>, ends: bool)
    decreases es, 0
  {
    es == [] || (ValidEntry(es[0], ends && |es| == 1) && ValidDoc(es[1..], ends))
  }

  /** What comes right after a bare token that nothing else ends. */
  predicate Ends(tail: bytes) {
    tail == [] || tail[0] == 123 || tail[0] == 125
  }

  // ----- printing: each part is written in front of what follows it -----

  function GapThen(g: Gap, tail: bytes): bytes {
    if g == [] then tail
    else match g[0]
      case Space(b) => [b] + GapThen(g[1..], tail)
      case Comment(text) => [47, 47] + (text + ([10] + GapThen(g[1..], tail)))
  }

  function UnitsThen(units: seq<Unit>, tail: bytes): bytes {
    if units == [] then tail
    else match units[0]
      case Plain(b) => [b] + UnitsThen(units[1..], tail)
      case Escaped(b) => [92, b] + UnitsThen(units[1..], tail)
  }

  function TokenThen(t: Token, after: Gap, tail: bytes): bytes {
    match t
    case Quoted(units) => [34] + UnitsThen(units, [34] + GapThen(after, tail))
    case Bare(word) => word + GapThen(after, tail)
  }

  function EntryThen(e: Entry, tail: bytes): bytes
    decreases e, 1
  {
    match e
    case Leaf(key, afterKey, value, after) => TokenThen(key, afterKey, TokenThen(value, after, tail))
    case Block(key, afterKey, afterOpen, body, afterClose) =>
      TokenThen(key, afterKey, [123] + GapThen(afterOpen, DocThen(body, [125] + GapThen(afterClose, tail))))
  }

  function DocThen(es: seq<Entry>, tail: bytes): bytes
    decreases es, 0
  {
    if es == [] then tail else EntryThen(es[0], DocThen(es[1..], tail))
  }

  // ----- meaning -----

  function DenoteEntry(e: Entry, out: Object): Object
    decreases e, 1
  {
    match e
    case Leaf(key, _, value, _) => out[key.Text() := Node(value.Text(), map[])]
    case Block(key, _, _, body, _) => AddBlock(out, key.Text(), Denote(body, map[]))
  }

  /** The object a document adds up to, entry by entry, starting from `out`. */
  function Denote(es: seq<Entry>, out: Object): Object
    decreases es, 0
  {
    if es == [] then out else Denote(es[1..], DenoteEntry(es[0], out))
  }

  // ----- gaps and tokens are read back -----

  lemma {:induction false} SkipLineOverText(text: bytes, tail: bytes)
    requires NEWLINE !in text
    ensures SkipLine(text + ([NEWLINE] + tail)) == [NEWLINE] + tail
  {
    var s := text + ([NEWLINE] + tail);
    if text == [] {
      assert s == [NEWLINE] + tail;
    } else {
      assert s[1..] == text[1..] + ([NEWLINE] + tail);
      SkipLineOverText(text[1..], tail);
    }
  }

  /** A gap before anything changes nothing for what reads past gaps. */
  lemma {:induction false} SkipOverGap(g: Gap, tail: bytes)
    requires ValidGap(g)
    ensures Skip(GapThen(g, tail)) == Skip(tail)
  {
    if g == [] {
    } else {
      SkipOverGap(g[1..], tail);
      var s, more := GapThen(g, tail), GapThen(g[1..], tail);
      match g[0]
      case Space(b) =>
        assert s[1..] == more;
      case Comment(text) =>
        assert s[2..] == text + ([NEWLINE] + more);
        SkipLineOverText(text, more);
        assert ([NEWLINE] + more)[1..] == more;
    }
  }

  lemma {:induction false} ReadUnitsBack(units: seq<Unit>, tail: bytes)
    requires ValidUnits(units)
    ensures ReadQuoted(UnitsThen(units, [QUOTE] + tail)) == Ok((Meaning(units), tail))
  {
    var s := UnitsThen(units, [QUOTE] + tail);
    if units == [] {
      assert s[1..] == tail;
    } else {
      ReadUnitsBack(units[1..], tail);
      var more := UnitsThen(units[1..], [QUOTE] + tail);
      match units[0]
      case Plain(_) =>
        assert s[1..] == more;
      case Escaped(_) =>
        assert s[2..] == more;
    }
  }

  /** One way to write a text in quotes. */
  function Escape(text: bytes): (units: seq<Unit>)
    ensures ValidUnits(units) && Meaning(units) == text
  {
    if text == [] then []
    else
      var b, more := text[0], Escape(text[1..]);
      [if b == QUOTE || b == BACKSLASH then Escaped(b)
       else if b == NEWLINE then Escaped(LETTER_N)
       else if b == TAB then Escaped(LETTER_T)
       else Plain(b)] + more
  }

  /** So every text is read back from its quoted form, whatever follows it. */
  lemma ReadQuotedBack(text: bytes, tail: bytes)
    ensures ReadQuoted(UnitsThen(Escape(text), [QUOTE] + tail)) == Ok((text, tail))
  {
    ReadUnitsBack(Escape(text), tail);
  }

  lemma BareLengthBack(text: bytes, tail: bytes)
    requires forall i :: 0 <= i < |text| ==> !IsDelimiter(text[i])
    requires tail == [] || IsDelimiter(tail[0])
    ensures BareLength(text + tail) == |text|
  {
    BareLengthSkips(text + tail, |text|);
    assert (text + tail)[|text|..] == tail;
  }

  /** A valid token is not skipped, and does not open or close a block. */
  lemma TokenStarts(t: Token, after: Gap, tail: bytes)
    requires ValidToken(t, after, Ends(tail))
    ensures var s := TokenThen(t, after, tail);
      s != [] && s[0] != CLOSE && s[0] != OPEN && Skip(s) == s
  {
    if t.Bare? && |t.word| == 1 && t.word[0] == SLASH {
      var s := TokenThen(t, after, tail);
      assert |s| > 1 ==> s[1] == GapThen(after, tail)[0] != SLASH;
    }
  }

  lemma ReadTokenBack(t: Token, after: Gap, tail: bytes)
    requires ValidToken(t, after, Ends(tail))
    ensures ReadToken(TokenThen(t, after, tail)) == Ok((t.Text(), GapThen(after, tail)))
  {
    var s, rest := TokenThen(t, after, tail), GapThen(after, tail);
    TokenStarts(t, after, tail);
    match t
    case Quoted(units) =>
      ReadUnitsBack(units, rest);
      assert s[1..] == UnitsThen(units, [QUOTE] + rest);
    case Bare(word) =>
      BareLengthBack(word, rest);
      assert s[..|word|] == word && s[|word|..] == rest && s[0] == word[0];
  }

  // ----- documents are read back -----

  lemma ParseAfterGap(g: Gap, tail: bytes, requireClose: bool, out: Object)
    requires ValidGap(g)
    ensures ParseObject(GapThen(g, tail), requireClose, out) == ParseObject(tail, requireClose, out)
  {
    SkipOverGap(g, tail);
  }

  lemma ParseLeafBack(e: Entry, tail: bytes, out: Object)
    requires e.Leaf? && ValidEntry(e, Ends(tail))
    ensures ParseEntry(EntryThen(e, tail), out) == Ok((DenoteEntry(e, out), GapThen(e.afterValue, tail)))
  {
    var s1 := TokenThen(e.value, e.afterValue, tail);
    ReadTokenBack(e.key, e.afterKey, s1);
    SkipOverGap(e.afterKey, s1);
    TokenStarts(e.value, e.afterValue, tail);
    ReadTokenBack(e.value, e.afterValue, tail);
  }

  lemma {:induction false} ParseBlockBack(e: Entry, tail: bytes, out: Object)
    requires e.Block? && ValidEntry(e, Ends(tail))
    ensures ParseEntry(EntryThen(e, tail), out) == Ok((DenoteEntry(e, out), GapThen(e.afterClose, tail)))
    decreases e, 1
  {
    var s3 := GapThen(e.afterClose, tail);
    var s2 := GapThen(e.afterOpen, DocThen(e.body, [CLOSE] + s3));
    var s1 := [OPEN] + s2;
    ReadTokenBack(e.key, e.afterKey, s1);
    SkipOverGap(e.afterKey, s1);
    assert Skip(s1) == s1 && s1[1..] == s2;
    ParseAfterGap(e.afterOpen, DocThen(e.body, [CLOSE] + s3), true, map[]);
    ParseDocBack(e.body, [CLOSE] + s3, true, map[]);
    assert ([CLOSE] + s3)[1..] == s3;
  }

  /** Reading a printed document is adding what it denotes, whatever follows it. */
  lemma {:induction false} ParseDocBack(es: seq<Entry>, tail: bytes, requireClose: bool, out: Object)
    requires ValidDoc(es, Ends(tail))
    ensures ParseObject(DocThen(es, tail), requireClose, out) == ParseObject(tail, requireClose, Denote(es, out))
    decreases es, 0
  {
    if es == [] {
    } else {
      var e, more := es[0], DocThen(es[1..], tail);
      FewerEnds(e, Ends(tail) && |es| == 1, Ends(more));
      EntryStarts(e, more);
      if e.Leaf? {
        ParseLeafBack(e, more, out);
        ParseAfterGap(e.afterValue, more, requireClose, DenoteEntry(e, out));
      } else {
        ParseBlockBack(e, more, out);
        ParseAfterGap(e.afterClose, more, requireClose, DenoteEntry(e, out));
      }
      ParseDocBack(es[1..], tail, requireClose, DenoteEntry(e, out));
    }
  }

  lemma FewerEnds(e: Entry, ends: bool, ends': bool)
    requires ValidEntry(e, ends) && (ends ==> ends')
    ensures ValidEntry(e, ends')
  {}

  lemma EntryStarts(e: Entry, tail: bytes)
    requires ValidEntry(e, Ends(tail))
    ensures var s := EntryThen(e, tail); s != [] && s[0] != CLOSE && s[0] != OPEN && Skip(s) == s
  {
    match e
    case Leaf(key, afterKey, value, after) => TokenStarts(key, afterKey, TokenThen(value, after, tail));
    case Block(key, afterKey, afterOpen, body, afterClose) =>
      TokenStarts(key, afterKey, [OPEN] + GapThen(afterOpen, DocThen(body, [CLOSE] + GapThen(afterClose, tail))));
  }

  // ----- files are read back -----

  /** How a file ends: with nothing more, a comment without its line end, or a stray brace before anything. */
  datatype Ending = Nothing | LastComment(text: bytes) | Stray(ignored: bytes)

  function EndingBytes(e: Ending): bytes {
    match e
    case Nothing => []
    case LastComment(text) => [47, 47] + text
    case Stray(ignored) => [125] + ignored
  }

  datatype File = File(bom: bool, before: Gap, entries: seq<Entry>, ending: Ending)

  function Text(f: File): bytes {
    GapThen(f.before, DocThen(f.entries, EndingBytes(f.ending)))
  }

  function Print(f: File): bytes {
    (if f.bom then [0xEF, 0xBB, 0xBF] else []) + Text(f)
  }

  /** Only a file whose own first bytes look like a byte-order mark needs the mark written. */
  predicate ValidFile(f: File) {
    && ValidGap(f.before) && ValidDoc(f.entries, !f.ending.LastComment?)
    && (f.ending.LastComment? ==> 10 !in f.ending.text)
    && (f.bom || !([0xEF, 0xBB, 0xBF] <= Text(f)))
  }

  lemma {:induction false} SkipLastLine(text: bytes)
    requires NEWLINE !in text
    ensures SkipLine(text) == []
  {
    if text == [] {
    } else {
      SkipLastLine(text[1..]);
    }
  }

  lemma ParseEnding(e: Ending, out: Object)
    requires e.LastComment? ==> NEWLINE !in e.text
    ensures var r := ParseObject(EndingBytes(e), false, out); r.Ok? && r.value.0 == out
  {
    if e.LastComment? {
      assert EndingBytes(e)[2..] == e.text;
      SkipLastLine(e.text);
      assert Skip(EndingBytes(e)) == Skip([]) == [];
    }
  }

  /**
    Parsing a printed file returns what it denotes, with or without a byte-order mark.  A stray closing
    brace at the top level ends the file: whatever follows it is ignored.
   */
  lemma ParsePrinted(f: File)
    requires ValidFile(f)
    ensures Parse(Print(f)) == Ok(Denote(f.entries, map[]))
  {
    var text, tail := Text(f), EndingBytes(f.ending);
    assert f.bom ==> Print(f)[|BOM|..] == text;
    assert !f.bom ==> Print(f) == text;
    ParseAfterGap(f.before, DocThen(f.entries, tail), false, map[]);
    ParseDocBack(f.entries, tail, false, map[]);
    ParseEnding(f.ending, Denote(f.entries, map[]));
  }

  // ----- gaps, comments and quotes do not matter -----

  /** The same tokens and blocks, whatever is between them and whether tokens are quoted. */
  predicate SameEntry(e: Entry, f: Entry)
    decreases e, 1
  {
    && e.key.Text() == f.key.Text()
    && match e
       case Leaf(_, _, value, _) => f.Leaf? && value.Text() == f.value.Text()
       case Block(_, _, _, body, _) => f.Block? && SameWords(body, f.body)
  }

  predicate SameWords(a: seq<Entry>, b: seq<Entry>)
    decreases a, 0
  {
    if a == [] then b == [] else b != [] && SameEntry(a[0], b[0]) && SameWords(a[1..], b[1..])
  }

  lemma {:induction false} SameWordsDenote(a: seq<Entry>, b: seq<Entry>, out: Object)
    requires SameWords(a, b)
    ensures Denote(a, out) == Denote(b, out)
    decreases a, 0
  {
    if a == [] {
    } else {
      if a[0].Block? {
        SameWordsDenote(a[0].body, b[0].body, map[]);
      }
      SameWordsDenote(a[1..], b[1..], DenoteEntry(a[0], out));
    }
  }

  /** Changing the mark, the ending, the white space and comments between tokens, or quotes, keeps the result. */
  lemma GapsDoNotMatter(f: File, g: File)
    requires ValidFile(f) && ValidFile(g) && SameWords(f.entries, g.entries)
    ensures Parse(Print(f)).Ok? && Parse(Print(f)) == Parse(Print(g))
  {
    ParsePrinted(f);
    ParsePrinted(g);
    SameWordsDenote(f.entries, g.entries, map[]);
  }

  // ----- trees are read back -----

  /** The entry shows the child: as a leaf if it has no children, as a block if it has no value. */
  predicate Shows(e: Entry, child: Node)
    decreases e, 1
  {
    match e
    case Leaf(_, _, value, _) => child.children == map[] && child.value == value.Text()
    case Block(_, _, _, body, _) => child.value == [] && Renders(body, child.children)
  }

  predicate ShowAll(es: seq<Entry>, o: Object)
    decreases es, 0
  {
    es == [] || (es[0].key.Text() in o && Shows(es[0], o[es[0].key.Text()]) && ShowAll(es[1..], o))
  }

  function KeysOf(es: seq<Entry>): set<bytes> {
    set e <- es :: e.key.Text()
  }

  /** The entries show each child of the object once, in any order. */
  predicate Renders(es: seq<Entry>, o: Object)
    decreases es, 1
  {
    DistinctKeys(es) && KeysOf(es) == o.Keys && ShowAll(es, o)
  }

  function Restrict(o: Object, keys: set<bytes>): Object
    requires keys <= o.Keys
  {
    map k | k in keys :: o[k]
  }

  lemma {:induction false} RendersDenotes(es: seq<Entry>, o: Object)
    requires Renders(es, o)
    ensures Denote(es, map[]) == o
    decreases es, 1
  {
    ShowAllDenotes(es, o, map[]);
    assert map[] + Restrict(o, o.Keys) == o;
  }

  lemma {:induction false} EntryDenotes(e: Entry, child: Node, out: Object)
    requires Shows(e, child)
    requires e.key.Text() !in out
    ensures DenoteEntry(e, out) == out[e.key.Text() := child]
    decreases e, 2
  {
    if e.Block? {
      RendersDenotes(e.body, child.children);
    }
    assert child == Node(child.value, child.children);
  }

  lemma RestrictOneMore(o: Object, keys: set<bytes>, k: bytes, out: Object)
    requires keys <= o.Keys && k in o && k !in keys
    ensures out[k := o[k]] + Restrict(o, keys) == out + Restrict(o, {k} + keys)
  {}

  lemma KeysOfMore(e: Entry, rest: seq<Entry>)
    ensures KeysOf([e] + rest) == {e.key.Text()} + KeysOf(rest)
  {
    var es := [e] + rest;
    assert forall x :: x in es <==> x == e || x in rest;
  }

  predicate DistinctKeys(es: seq<Entry>) {
    forall i, j :: 0 <= i < j < |es| ==> es[i].key.Text() != es[j].key.Text()
  }

  lemma DistinctMore(e: Entry, rest: seq<Entry>)
    requires DistinctKeys(rest) && e.key.Text() !in KeysOf(rest)
    ensures DistinctKeys([e] + rest) && KeysOf([e] + rest) == {e.key.Text()} + KeysOf(rest)
  {
    KeysOfMore(e, rest);
    forall i | 0 <= i < |rest| ensures rest[i].key.Text() != e.key.Text() {
      assert rest[i].key.Text() in KeysOf(rest);
    }
  }

  lemma FirstIsDistinct(es: seq<Entry>)
    requires es != [] && DistinctKeys(es)
    ensures DistinctKeys(es[1..]) && es[0].key.Text() !in KeysOf(es[1..])
    ensures KeysOf(es) == {es[0].key.Text()} + KeysOf(es[1..])
  {
    assert es == [es[0]] + es[1..];
    KeysOfMore(es[0], es[1..]);
  }

  lemma {:induction false} ShowAllDenotes(es: seq<Entry>, o: Object, out: Object)
    requires DistinctKeys(es) && ShowAll(es, o) && KeysOf(es) !! out.Keys
    ensures KeysOf(es) <= o.Keys
    ensures Denote(es, out) == out + Restrict(o, KeysOf(es))
    decreases es, 0
  {
    if es == [] {
      assert out + Restrict(o, {}) == out;
    } else {
      var k := es[0].key.Text();
      FirstIsDistinct(es);
      EntryDenotes(es[0], o[k], out);
      ShowAllDenotes(es[1..], o, out[k := o[k]]);
      RestrictOneMore(o, KeysOf(es[1..]), k, out);
    }
  }

  /** For every tree of string leaves and blocks, and every order and layout of it, parsing returns the tree. */
  lemma TreeRoundTrip(f: File, tree: Object)
    requires ValidFile(f) && Renders(f.entries, tree)
    ensures Parse(Print(f)) == Ok(tree)
  {
    ParsePrinted(f);
    RendersDenotes(f.entries, tree);
  }

  // ----- every tree has a rendering -----

  /** Every node is a string leaf or a block, all the way down. */
  predicate IsTree(n: Node) {
    && (n.children != map[] ==> n.value == [])
    && forall k :: k in n.children ==> IsTree(n.children[k])
  }

  /** The children in the order of the keys given, quoted and without gaps. */
  ghost function RenderEntry(key: bytes, child: Node): Entry
    decreases child, |child.children| + 1
  {
    if child.children == map[] then Leaf(Quoted(Escape(key)), [], Quoted(Escape(child.value)), [])
    else Block(Quoted(Escape(key)), [], [], Render(child, child.children.Keys), [])
  }

  ghost function Render(n: Node, keys: set<bytes>): seq<Entry>
    requires keys <= n.children.Keys
    decreases n, |keys|
  {
    if keys == {} then []
    else
      var k := Pick(keys);
      [RenderEntry(k, n.children[k])] + Render(n, keys - {k})
  }

  lemma {:induction false} RenderIsValid(n: Node, keys: set<bytes>)
    requires keys <= n.children.Keys
    ensures ValidDoc(Render(n, keys), true)
    decreases n, |keys|
  {
    if keys == {} {
    } else {
      var k := Pick(keys);
      if n.children[k].children != map[] {
        RenderIsValid(n.children[k], n.children[k].children.Keys);
      }
      RenderIsValid(n, keys - {k});
    }
  }

  lemma {:induction false} RenderHasKeys(n: Node, keys: set<bytes>)
    requires keys <= n.children.Keys
    ensures KeysOf(Render(n, keys)) == keys && DistinctKeys(Render(n, keys))
    decreases |keys|
  {
    if keys == {} {
    } else {
      var k := Pick(keys);
      var rest := Render(n, keys - {k});
      RenderHasKeys(n, keys - {k});
      assert k !in keys - {k} && {k} + (keys - {k}) == keys;
      DistinctMore(RenderEntry(k, n.children[k]), rest);
    }
  }

  lemma {:induction false} RenderShowsAll(n: Node, keys: set<bytes>)
    requires IsTree(n) && keys <= n.children.Keys
    ensures ShowAll(Render(n, keys), n.children)
    decreases n, |keys|
  {
    if keys == {} {
    } else {
      var k := Pick(keys);
      var child := n.children[k];
      if child.children != map[] {
        RenderShowsAll(child, child.children.Keys);
        RenderHasKeys(child, child.children.Keys);
      }
      RenderShowsAll(n, keys - {k});
      assert Render(n, keys)[1..] == Render(n, keys - {k});
    }
  }

  lemma QuotedFirst(es: seq<Entry>)
    requires es != [] && es[0].key.Quoted?
    ensures DocThen(es, []) != [] && DocThen(es, [])[0] == QUOTE
  {
    assert DocThen(es, []) == EntryThen(es[0], DocThen(es[1..], []));
  }

  /** So every tree is printed in some way, and read back from it. */
  lemma EveryTreeIsPrinted(tree: Node) returns (f: File)
    requires IsTree(tree)
    ensures ValidFile(f) && Renders(f.entries, tree.children) && Parse(Print(f)) == Ok(tree.children)
  {
    var es := Render(tree, tree.children.Keys);
    f := File(false, [], es, Nothing);
    RenderIsValid(tree, tree.children.Keys);
    RenderHasKeys(tree, tree.children.Keys);
    RenderShowsAll(tree, tree.children.Keys);
    if tree.children.Keys != {} {
      var k := Pick(tree.children.Keys);
      assert es[0] == RenderEntry(k, tree.children[k]);
      QuotedFirst(es);
    }
    TreeRoundTrip(f, tree.children);
  }
}
