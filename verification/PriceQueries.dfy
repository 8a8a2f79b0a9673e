/**
  Price queries: their normal form, the key under which the cache keeps an answer, the items that a
  scan returns, and the order in which a cached answer lists them.

  `upper` stands for strings.ToUpper.
 */
module PriceQueries {
  import opened Prelude
  import opened Strings

  /** The caller's price multipliers are not part of it: the cache clears them before it scans. */
  datatype Query = Query(names: seq<string>, currency: string, appID: int)

  datatype Quote = Quote(source: string, marketName: string, amount: int)

  datatype Item = Item(marketName: string, quotes: seq<Quote>)

  const NUL := '\0'
  const SEPARATOR := '\U{1}'

  // ----- the normal form -----

  /** The trimmed names, without blanks, each where it first occurs. */
  function Unique(names: seq<string>): (out: seq<string>)
    ensures forall i, j :: 0 <= i < j < |out| ==> out[i] != out[j]
    ensures "" !in out
  {
    if names == [] then []
    else
      var last, front := |names| - 1, Unique(names[..|names| - 1]);
      var n := TrimSpace(names[last]);
      if n == "" || n in front then front else front + [n]
  }

  lemma {:induction false} UniqueHas(names: seq<string>, n: string)
    ensures n in Unique(names) <==> n != "" && Asks(names, n)
  {
    if names == [] {
    } else {
      UniqueHas(names[..|names| - 1], n);
      AsksLast(names, n);
    }
  }

  ghost predicate Asks(names: seq<string>, n: string) {
    exists i :: 0 <= i < |names| && TrimSpace(names[i]) == n
  }

  lemma AsksLast(names: seq<string>, n: string)
    requires names != []
    ensures var last := |names| - 1; Asks(names, n) <==> TrimSpace(names[last]) == n || Asks(names[..last], n)
  {}

  lemma AsksAt(names: seq<string>, j: nat, last: nat)
    requires j < last <= |names|
    ensures Asks(names[..last], TrimSpace(names[j]))
  {
    assert names[..last][j] == names[j];
  }

  /** And in the order in which they first occur: wherever a later one stands, an earlier one stood before. */
  lemma {:induction false} UniqueOrder(names: seq<string>, k: nat, l: nat, j: nat)
    requires k < l < |Unique(names)| && j < |names| && TrimSpace(names[j]) == Unique(names)[l]
    ensures Asks(names[..j], Unique(names)[k])
  {
    var last, out := |names| - 1, Unique(names);
    var front := names[..last];
    if j < last {
      AsksAt(names, j, last);
      UniqueHas(front, out[l]);
      UniqueOrder(front, k, l, j);
      assert front[..j] == names[..j];
    } else {
      UniqueHas(front, out[k]);
      assert out[k] == Unique(front)[k];
    }
  }

  method UniqueNames(names: seq<string>) returns (out: seq<string>)
    ensures out == Unique(names)
  {
    out := [];
    var seen := {};
    var i := 0;
    while i < |names|
      invariant 0 <= i <= |names| && out == Unique(names[..i]) && seen == (set n <- out)
    {
      var name := TrimSpace(names[i]);
      assert names[..i + 1][..i] == names[..i];
      if name != "" && name !in seen {
        seen := seen + {name};
        out := out + [name];
      }
      i := i + 1;
    }
    assert names[..i] == names;
  }

  function Currency(upper: string -> string, q: Query): string {
    var c := upper(TrimSpace(q.currency));
    if c == "" then "USD" else c
  }

  function App(q: Query): int {
    if q.appID == 0 then 730 else q.appID
  }

  function NameSet(q: Query): set<string> {
    set n <- Unique(q.names)
  }

  // ----- sorting -----

  /** The order of the code points, which is that of the bytes of UTF-8. */
  predicate Less(a: string, b: string) {
    b != "" && (a == "" || a[0] < b[0] || (a[0] == b[0] && Less(a[1..], b[1..])))
  }

  /** Less at the first place where they differ, or a beginning of it. */
  lemma {:induction false} LessIs(a: string, b: string)
    ensures Less(a, b) <==> exists i: nat :: i <= |a| && i < |b| && a[..i] == b[..i] && (i == |a| || a[i] < b[i])
  {
    if a == "" || b == "" || a[0] != b[0] {
      if Less(a, b) {
        assert a[..0] == b[..0];
      }
      if a != "" && b != "" {
        forall i | 0 < i <= |a| && i < |b| ensures a[..i] != b[..i] {
          assert a[..i][0] == a[0] && b[..i][0] == b[0];
        }
      }
    } else {
      LessIs(a[1..], b[1..]);
      if i: nat :| i < |a| && i + 1 < |b| && a[1..][..i] == b[1..][..i] && (i + 1 == |a| || a[1..][i] < b[1..][i]) {
        assert a[..i + 1] == [a[0]] + a[1..][..i] && b[..i + 1] == [b[0]] + b[1..][..i];
      }
      if i: nat :| i <= |a| && i < |b| && a[..i] == b[..i] && (i == |a| || a[i] < b[i]) {
        assert i > 0;
        assert a[1..][..i - 1] == a[..i][1..] && b[1..][..i - 1] == b[..i][1..];
      }
    }
  }

  lemma {:induction false} LessIsTotal(a: string, b: string)
    ensures !(Less(a, b) && Less(b, a))
    ensures a == b || Less(a, b) || Less(b, a)
  {
    if a == "" || b == "" {
    } else {
      LessIsTotal(a[1..], b[1..]);
      assert a == [a[0]] + a[1..] && b == [b[0]] + b[1..];
    }
  }

  lemma {:induction false} LessIsTransitive(a: string, b: string, c: string)
    requires Less(a, b) && Less(b, c)
    ensures Less(a, c)
  {
    if a != "" && a[0] == b[0] == c[0] {
      LessIsTransitive(a[1..], b[1..], c[1..]);
    }
  }

  ghost predicate Ascending(s: seq<string>) {
    forall i, j :: 0 <= i < j < |s| ==> Less(s[i], s[j])
  }

  function Insert(x: string, s: seq<string>): seq<string> {
    if s == [] || Less(x, s[0]) then [x] + s else [s[0]] + Insert(x, s[1..])
  }

  function Sort(s: seq<string>): seq<string> {
    if s == [] then [] else Insert(s[0], Sort(s[1..]))
  }

  lemma {:induction false} InsertAscends(x: string, s: seq<string>)
    requires Ascending(s) && x !in s
    ensures Ascending(Insert(x, s)) && forall n :: n in Insert(x, s) <==> n == x || n in s
  {
    if s == [] {
    } else if Less(x, s[0]) {
      forall j | 0 <= j < |s| ensures Less(x, s[j]) {
        if j > 0 {
          LessIsTransitive(x, s[0], s[j]);
        }
      }
    } else {
      LessIsTotal(x, s[0]);
      assert s == [s[0]] + s[1..];
      InsertAscends(x, s[1..]);
      var t := Insert(x, s[1..]);
      forall j | 0 <= j < |t| ensures Less(s[0], t[j]) {
        assert t[j] in t;
        if t[j] != x {
          assert t[j] in s[1..];
        }
      }
    }
  }

  lemma {:induction false} SortAscends(s: seq<string>)
    requires forall i, j :: 0 <= i < j < |s| ==> s[i] != s[j]
    ensures Ascending(Sort(s)) && forall n :: n in Sort(s) <==> n in s
  {
    if s == [] {
    } else {
      SortAscends(s[1..]);
      InsertAscends(s[0], Sort(s[1..]));
      assert s == [s[0]] + s[1..];
    }
  }

  lemma FirstIsLeast(a: seq<string>, b: seq<string>)
    requires Ascending(a) && Ascending(b) && a != [] && b != [] && a[0] in b && b[0] in a
    ensures a[0] == b[0]
  {
    LessIsTotal(a[0], b[0]);
  }

  lemma AscendingRest(a: seq<string>, n: string)
    requires Ascending(a) && a != []
    ensures n in a[1..] <==> n in a && n != a[0]
  {
    if n in a[1..] {
      var i :| 0 <= i < |a| - 1 && a[1..][i] == n;
      assert Less(a[0], a[i + 1]);
      LessIsTotal(n, n);
    }
    assert a == [a[0]] + a[1..];
  }

  lemma EmptyTogether(a: seq<string>, b: seq<string>)
    requires forall n :: n in a <==> n in b
    ensures a == [] <==> b == []
  {
    if a != [] {
      assert a[0] in a;
    }
    if b != [] {
      assert b[0] in b;
    }
  }

  /** An ascending sequence is determined by its elements. */
  lemma {:induction false} AscendingIsUnique(a: seq<string>, b: seq<string>)
    requires Ascending(a) && Ascending(b) && forall n :: n in a <==> n in b
    ensures a == b
  {
    EmptyTogether(a, b);
    if a != [] {
      FirstIsLeast(a, b);
      forall n ensures n in a[1..] <==> n in b[1..] {
        AscendingRest(a, n);
        AscendingRest(b, n);
      }
      AscendingIsUnique(a[1..], b[1..]);
      assert a == [a[0]] + a[1..] && b == [b[0]] + b[1..];
    }
  }

  // ----- the key -----

  function Join(names: seq<string>, separator: char): string {
    if names == [] then ""
    else if |names| == 1 then names[0]
    else names[0] + [separator] + Join(names[1..], separator)
  }

  function Itoa(n: int): (s: string)
    ensures forall c <- s :: IsDigit(c) || c == '-'
  {
    if n < 0 then "-" + Dec(-n) else Dec(n)
  }

  function Key(upper: string -> string, q: Query): string {
    Join(Sort(Unique(q.names)), NUL) + [SEPARATOR] + (Currency(upper, q) + [SEPARATOR] + Itoa(App(q)))
  }

  lemma CutInside(a: string, b: string, a': string, b': string, c: char)
    requires a + [c] + b == a' + [c] + b' && |a| < |a'|
    ensures c in a' && c in b
  {
    var s := a + [c] + b;
    assert s[|a|] == c && a'[|a|] == s[|a|];
    assert s[|a'|] == (a' + [c] + b')[|a'|] == c && b[|a'| - |a| - 1] == s[|a'|];
  }

  lemma SameCut(a: string, b: string, a': string, b': string, c: char)
    requires a + [c] + b == a' + [c] + b' && |a| == |a'|
    ensures a == a' && b == b'
  {
    var s := a + [c] + b;
    assert a == s[..|a|] && a' == s[..|a|] && b == s[|a| + 1..] && b' == s[|a| + 1..];
  }

  /** A sequence is split at the first or at the last separator in one way only. */
  lemma SplitOnce(a: string, b: string, a': string, b': string, c: char)
    requires (c !in a && c !in a') || (c !in b && c !in b')
    requires a + [c] + b == a' + [c] + b'
    ensures a == a' && b == b'
  {
    if |a| < |a'| {
      CutInside(a, b, a', b', c);
    } else if |a'| < |a| {
      CutInside(a', b', a, b, c);
    } else {
      SameCut(a, b, a', b', c);
    }
  }

  ghost predicate Free(names: seq<string>, c: char) {
    forall n <- names :: c !in n
  }

  lemma {:induction false} JoinFree(names: seq<string>, separator: char, c: char)
    requires c != separator && Free(names, c)
    ensures c !in Join(names, separator)
  {
    if |names| > 1 {
      JoinFree(names[1..], separator, c);
      assert names[0] in names;
    } else if |names| == 1 {
      assert names[0] in names;
    }
  }

  /** The pieces of a text between separators, empty ones included. */
  function Split(s: string, c: char): (pieces: seq<string>)
    ensures pieces != []
  {
    if s == "" then [""]
    else
      var rest := Split(s[1..], c);
      if s[0] == c then [""] + rest else Longer(s[0], rest)
  }

  function Longer(first: char, pieces: seq<string>): seq<string>
    requires pieces != []
  {
    [[first] + pieces[0]] + pieces[1..]
  }

  function Pieces(names: seq<string>, c: char): seq<string> {
    if names == [] then [] else Split(names[0], c) + Pieces(names[1..], c)
  }

  lemma {:induction false} JoinSplit(s: string, c: char)
    ensures Join(Split(s, c), c) == s
  {
    if s == "" {
    } else {
      JoinSplit(s[1..], c);
      assert s == [s[0]] + s[1..];
    }
  }

  lemma SplitFirst(first: char, s: string, c: char)
    ensures Split([first] + s, c) == if first == c then [""] + Split(s, c) else Longer(first, Split(s, c))
  {
    assert ([first] + s)[1..] == s;
  }

  lemma LongerConcat(first: char, a: seq<string>, b: seq<string>)
    requires a != []
    ensures Longer(first, a + b) == Longer(first, a) + b
    ensures [""] + (a + b) == ([""] + a) + b
  {}

  lemma {:induction false} SplitCut(a: string, b: string, c: char)
    ensures Split(a + [c] + b, c) == Split(a, c) + Split(b, c)
  {
    if a == "" {
      assert a + [c] + b == [c] + b;
    } else {
      SplitCut(a[1..], b, c);
      assert a + [c] + b == [a[0]] + (a[1..] + [c] + b);
      SplitFirst(a[0], a[1..] + [c] + b, c);
      LongerConcat(a[0], Split(a[1..], c), Split(b, c));
    }
  }

  lemma {:induction false} SplitJoin(names: seq<string>, c: char)
    requires names != []
    ensures Split(Join(names, c), c) == Pieces(names, c)
  {
    if |names| == 1 {
    } else {
      SplitJoin(names[1..], c);
      SplitCut(names[0], Join(names[1..], c), c);
    }
  }

  /** Two lists of names are joined to the same text exactly when they have the same pieces. */
  lemma SameJoinIff(a: seq<string>, b: seq<string>, c: char)
    requires "" !in a && "" !in b
    ensures Join(a, c) == Join(b, c) <==> Pieces(a, c) == Pieces(b, c)
  {
    if a == [] || b == [] {
    } else {
      SplitJoin(a, c);
      SplitJoin(b, c);
      JoinSplit(Join(a, c), c);
      JoinSplit(Join(b, c), c);
    }
  }

  lemma {:induction false} SplitOfFree(s: string, c: char)
    requires c !in s
    ensures Split(s, c) == [s]
  {
    if s == "" {
    } else {
      SplitOfFree(s[1..], c);
      assert s == [s[0]] + s[1..];
    }
  }

  lemma {:induction false} PiecesOfFree(names: seq<string>, c: char)
    requires Free(names, c)
    ensures Pieces(names, c) == names
  {
    if names == [] {
    } else {
      assert names[0] in names;
      SplitOfFree(names[0], c);
      PiecesOfFree(names[1..], c);
    }
  }

  // ----- splitting at both separators -----

  /** The pieces between NULs of every part. */
  function Cells(parts: seq<string>): (rows: seq<seq<string>>)
    ensures |rows| == |parts| && forall i :: 0 <= i < |rows| ==> rows[i] == Split(parts[i], NUL)
  {
    if parts == [] then [] else [Split(parts[0], NUL)] + Cells(parts[1..])
  }

  function Rows(s: string): (rows: seq<seq<string>>)
    ensures rows != []
  {
    Cells(Split(s, SEPARATOR))
  }

  /** Two tables one after the other, the last row of the first continued by the first row of the second. */
  function Glue(a: seq<seq<string>>, b: seq<seq<string>>): (rows: seq<seq<string>>)
    requires a != [] && b != []
    ensures rows != []
  {
    a[..|a| - 1] + [a[|a| - 1] + b[0]] + b[1..]
  }

  /** The rows of the names: a name continues the row of the one before it, and goes on below after each separator. */
  function NameRows(names: seq<string>): (rows: seq<seq<string>>)
    ensures rows != []
  {
    if names == [] then [[""]]
    else if |names| == 1 then Rows(names[0])
    else Glue(Rows(names[0]), NameRows(names[1..]))
  }

  function LongerRow(first: char, row: seq<string>): seq<string>
    requires row != []
  {
    if first == NUL then [""] + row else Longer(first, row)
  }

  function PutFirst(first: char, rows: seq<seq<string>>): seq<seq<string>>
    requires rows != [] && rows[0] != []
  {
    if first == SEPARATOR then [[""]] + rows else [LongerRow(first, rows[0])] + rows[1..]
  }

  lemma RowsFirst(first: char, s: string)
    ensures Rows([first] + s) == PutFirst(first, Rows(s))
  {
    var parts := Split(s, SEPARATOR);
    SplitFirst(first, s, SEPARATOR);
    SplitFirst(first, parts[0], NUL);
    if first == SEPARATOR {
      assert ([""] + parts)[1..] == parts && Split("", NUL) == [""];
    } else {
      assert Longer(first, parts)[1..] == parts[1..];
    }
  }

  lemma GlueFirst(first: char, a: seq<seq<string>>, b: seq<seq<string>>)
    requires a != [] && a[0] != [] && b != []
    ensures Glue(a, b)[0] != [] && Glue(PutFirst(first, a), b) == PutFirst(first, Glue(a, b))
  {
    if first == SEPARATOR {
      assert ([[""]] + a)[..|a|] == [[""]] + a[..|a| - 1];
    } else if |a| == 1 {
      LongerConcat(first, a[0], b[0]);
    } else {
      assert PutFirst(first, a)[..|a| - 1] == [LongerRow(first, a[0])] + a[1..|a| - 1];
    }
  }

  lemma {:induction false} RowsGlue(a: string, b: string)
    ensures Rows(a + [NUL] + b) == Glue(Rows(a), Rows(b))
  {
    if a == "" {
      assert a + [NUL] + b == [NUL] + b;
      RowsFirst(NUL, b);
      assert Split("", SEPARATOR) == [""] && Split("", NUL) == [""];
    } else {
      var rest := a[1..] + [NUL] + b;
      RowsGlue(a[1..], b);
      assert a + [NUL] + b == [a[0]] + rest && a == [a[0]] + a[1..];
      RowsFirst(a[0], rest);
      RowsFirst(a[0], a[1..]);
      GlueFirst(a[0], Rows(a[1..]), Rows(b));
    }
  }

  lemma {:induction false} JoinRows(names: seq<string>)
    ensures Rows(Join(names, NUL)) == NameRows(names)
  {
    if names == [] {
      assert Split("", SEPARATOR) == [""] && Split("", NUL) == [""];
    } else if |names| == 1 {
    } else {
      JoinRows(names[1..]);
      RowsGlue(names[0], Join(names[1..], NUL));
    }
  }

  lemma {:induction false} CellsInjective(a: seq<string>, b: seq<string>)
    requires Cells(a) == Cells(b)
    ensures a == b
  {
    forall i | 0 <= i < |a| ensures a[i] == b[i] {
      assert Split(a[i], NUL) == Cells(a)[i] == Cells(b)[i] == Split(b[i], NUL);
      JoinSplit(a[i], NUL);
      JoinSplit(b[i], NUL);
    }
  }

  lemma SameRows(a: string, b: string)
    ensures Rows(a) == Rows(b) <==> a == b
  {
    if Rows(a) == Rows(b) {
      CellsInjective(Split(a, SEPARATOR), Split(b, SEPARATOR));
      JoinSplit(a, SEPARATOR);
      JoinSplit(b, SEPARATOR);
    }
  }

  lemma RowsCut(a: string, b: string)
    ensures Rows(a + [SEPARATOR] + b) == Rows(a) + Rows(b)
  {
    SplitCut(a, b, SEPARATOR);
  }

  lemma ItoaInjective(m: int, n: int)
    requires Itoa(m) == Itoa(n)
    ensures m == n
  {
    assert m < 0 ==> Itoa(m)[1..] == Dec(-m);
    assert n < 0 ==> Itoa(n)[1..] == Dec(-n);
    assert m >= 0 ==> IsDigit(Itoa(m)[0]);
    assert n >= 0 ==> IsDigit(Itoa(n)[0]);
    if m < 0 {
      DecInjective(-m, -n);
    } else {
      DecInjective(m, n);
    }
  }

  lemma SortedNames(q: Query)
    ensures Ascending(Sort(Unique(q.names))) && forall n :: n in Sort(Unique(q.names)) <==> n in NameSet(q)
  {
    SortAscends(Unique(q.names));
  }

  /** What a key keeps of the names and the currency: the rows of both, one under the other. */
  function KeyRows(upper: string -> string, q: Query): seq<seq<string>> {
    NameRows(Sort(Unique(q.names))) + Rows(Currency(upper, q))
  }

  /** The key without the app. */
  function KeyFront(upper: string -> string, q: Query): string {
    Join(Sort(Unique(q.names)), NUL) + [SEPARATOR] + Currency(upper, q)
  }

  lemma KeyCut(upper: string -> string, q: Query)
    ensures Key(upper, q) == KeyFront(upper, q) + [SEPARATOR] + Itoa(App(q))
  {
    var a, b, c := Join(Sort(Unique(q.names)), NUL) + [SEPARATOR], Currency(upper, q), [SEPARATOR] + Itoa(App(q));
    Associate(a, b, c);
  }

  lemma SameKeyCut(upper: string -> string, p: Query, q: Query)
    ensures Key(upper, p) == Key(upper, q) <==> KeyFront(upper, p) == KeyFront(upper, q) && App(p) == App(q)
  {
    KeyCut(upper, p);
    KeyCut(upper, q);
    if Key(upper, p) == Key(upper, q) {
      SplitOnce(KeyFront(upper, p), Itoa(App(p)), KeyFront(upper, q), Itoa(App(q)), SEPARATOR);
      ItoaInjective(App(p), App(q));
    }
  }

  lemma FrontRows(upper: string -> string, q: Query)
    ensures Rows(KeyFront(upper, q)) == KeyRows(upper, q)
  {
    JoinRows(Sort(Unique(q.names)));
    RowsCut(Join(Sort(Unique(q.names)), NUL), Currency(upper, q));
  }

  /** Two queries share a key exactly when those rows and the app agree, whatever is in their names and currency. */
  lemma SameKeyIffRows(upper: string -> string, p: Query, q: Query)
    ensures Key(upper, p) == Key(upper, q) <==> KeyRows(upper, p) == KeyRows(upper, q) && App(p) == App(q)
  {
    SameKeyCut(upper, p, q);
    FrontRows(upper, p);
    FrontRows(upper, q);
    SameRows(KeyFront(upper, p), KeyFront(upper, q));
  }

  /** What a key keeps of the names: their pieces between NULs, in the order of the names. */
  function KeyPieces(q: Query): seq<string> {
    Pieces(Sort(Unique(q.names)), NUL)
  }

  /**
    If the names, or the currencies, are free of the outer separator, these are the pieces of the sorted
    names, the currency and the app.
   */
  lemma SameKeyIffPieces(upper: string -> string, p: Query, q: Query)
    requires || (Free(Unique(p.names), SEPARATOR) && Free(Unique(q.names), SEPARATOR))
             || (SEPARATOR !in Currency(upper, p) && SEPARATOR !in Currency(upper, q))
    ensures Key(upper, p) == Key(upper, q) <==>
            KeyPieces(p) == KeyPieces(q) && Currency(upper, p) == Currency(upper, q) && App(p) == App(q)
  {
    var a, b := Sort(Unique(p.names)), Sort(Unique(q.names));
    SortedNames(p);
    SortedNames(q);
    SameJoinIff(a, b, NUL);
    SameKeyCut(upper, p, q);
    if KeyFront(upper, p) == KeyFront(upper, q) {
      if Free(Unique(p.names), SEPARATOR) && Free(Unique(q.names), SEPARATOR) {
        JoinFree(a, NUL, SEPARATOR);
        JoinFree(b, NUL, SEPARATOR);
      }
      SplitOnce(Join(a, NUL), Currency(upper, p), Join(b, NUL), Currency(upper, q), SEPARATOR);
    }
  }

  /** No name has a separator in it. */
  ghost predicate Plain(q: Query) {
    Free(Unique(q.names), NUL) && Free(Unique(q.names), SEPARATOR)
  }

  /** So if no name has a NUL either, they must have the same names, currency and app. */
  lemma SameKeyIff(upper: string -> string, p: Query, q: Query)
    requires Plain(p) && Plain(q)
    ensures Key(upper, p) == Key(upper, q) <==>
            NameSet(p) == NameSet(q) && Currency(upper, p) == Currency(upper, q) && App(p) == App(q)
  {
    var a, b := Sort(Unique(p.names)), Sort(Unique(q.names));
    SortedNames(p);
    SortedNames(q);
    SameKeyIffPieces(upper, p, q);
    PiecesOfFree(a, NUL);
    PiecesOfFree(b, NUL);
    if NameSet(p) == NameSet(q) {
      AscendingIsUnique(a, b);
    }
    if a == b {
      assert forall n :: n in NameSet(p) <==> n in NameSet(q);
    }
  }

  /** The text of a key: the sorted distinct trimmed names between NULs, the currency, and the app. */
  lemma KeyIs(upper: string -> string, q: Query, names: seq<string>)
    requires Ascending(names)
    requires forall n :: n in names <==> n != "" && exists i :: 0 <= i < |q.names| && TrimSpace(q.names[i]) == n
    ensures var c := upper(TrimSpace(q.currency));
      Key(upper, q) == Join(names, '\0') + "\U{1}" + ((if c == "" then "USD" else c) + "\U{1}" +
                       Itoa(if q.appID == 0 then 730 else q.appID))
  {
    var sorted := Sort(Unique(q.names));
    SortedNames(q);
    forall n ensures n in names <==> n in sorted {
      UniqueHas(q.names, n);
    }
    AscendingIsUnique(sorted, names);
    assert "\U{1}" == [SEPARATOR];
  }

  predicate Trimmed(a: string) {
    a != "" && !IsSpace(a[0]) && !IsSpace(a[|a| - 1])
  }

  lemma KeepOne(q: Query, a: string)
    requires q.names == [a] && Trimmed(a)
    ensures Unique(q.names) == [a] == Sort([a]) && Join([a], NUL) == a
  {}

  lemma KeepTwo(q: Query, a: string, b: string)
    requires q.names == [a, b] && Trimmed(a) && Trimmed(b) && Less(a, b)
    ensures Unique(q.names) == [a, b] == Sort([a, b]) && Join([a, b], NUL) == a + [NUL] + b
  {
    LessIsTotal(a, b);
    KeepOne(q.(names := [a]), a);
    KeepOne(q.(names := [b]), b);
    assert [a, b][..1] == [a] && [a, b][1..] == [b];
  }

  /** Without that, the key of two names is also the key of one name with a separator in it. */
  lemma SeparatorsClash(upper: string -> string, p: Query, q: Query, a: string, b: string)
    requires Trimmed(a) && Trimmed(b) && Less(a, b)
    requires q.names == [a, b] && p == q.(names := [a + [NUL] + b])
    ensures Key(upper, p) == Key(upper, q) && NameSet(p) != NameSet(q)
  {
    KeepOne(p, a + [NUL] + b);
    KeepTwo(q, a, b);
    assert a in NameSet(q) && a !in NameSet(p);
  }

  /** And a name with the outer separator in it can share its key with a name and a currency. */
  lemma CurrenciesClash(upper: string -> string, p: Query, q: Query, a: string, c: string)
    requires Trimmed(a) && Trimmed(a + [SEPARATOR] + c)
    requires p.names == [a + [SEPARATOR] + c] && q.names == [a] && p.appID == q.appID
    requires Currency(upper, q) == c + [SEPARATOR] + Currency(upper, p)
    ensures Key(upper, p) == Key(upper, q) && NameSet(p) != NameSet(q)
  {
    KeepOne(p, a + [SEPARATOR] + c);
    KeepOne(q, a);
    SameKeyCut(upper, p, q);
    Associate(a + [SEPARATOR], c, [SEPARATOR] + Currency(upper, p));
    Associate(c, [SEPARATOR], Currency(upper, p));
    assert a in NameSet(q) && a !in NameSet(p);
  }

  // ----- scanning -----

  function QuotesFor(quotes: seq<Quote>, name: string): seq<Quote> {
    if quotes == [] then []
    else
      var last := |quotes| - 1;
      QuotesFor(quotes[..last], name) + if quotes[last].marketName == name then [quotes[last]] else []
  }

  /**
    The marketplaces: the quotes they return for a list of names, in the order of their responses, or
    none if the query is refused; and the order in which an item's quotes are listed.
   */
  datatype Market = Market(quotes: (seq<string>, string, int) -> seq<Quote>, order: seq<Quote> -> seq<Quote>)

  /** What is quoted for a name does not depend on the other names asked for. */
  ghost predicate PerName(m: Market) {
    forall a, b, n, c, app | n in a && n in b :: QuotesFor(m.quotes(a, c, app), n) == QuotesFor(m.quotes(b, c, app), n)
  }

  /** The items of a scan: one for each name asked for, with that name's quotes. */
  function ScanItems(m: Market, upper: string -> string, q: Query): seq<Item> {
    var names := Unique(q.names);
    var quotes := m.quotes(names, Currency(upper, q), App(q));
    seq(|names|, i requires 0 <= i < |names| => Item(names[i], m.order(QuotesFor(quotes, names[i]))))
  }

  /** A scan refuses an empty query and one of more than 100 names. */
  function Scan(m: Market, upper: string -> string, q: Query): Option<seq<Item>> {
    if 0 < |Unique(q.names)| <= 100 then Some(ScanItems(m, upper, q)) else None
  }

  /** A name's quotes: as often as they were returned under that name, and in their order. */
  lemma {:induction false} QuotesForIs(quotes: seq<Quote>, name: string, q: Quote)
    ensures multiset(QuotesFor(quotes, name))[q] == if q.marketName == name then multiset(quotes)[q] else 0
  {
    if quotes == [] {
    } else {
      var last := |quotes| - 1;
      QuotesForIs(quotes[..last], name, q);
      assert quotes == quotes[..last] + [quotes[last]];
    }
  }

  lemma {:induction false} QuotesForConcat(a: seq<Quote>, b: seq<Quote>, name: string)
    ensures QuotesFor(a + b, name) == QuotesFor(a, name) + QuotesFor(b, name)
  {
    if b == [] {
      assert a + b == a && QuotesFor(a, name) + [] == QuotesFor(a, name);
    } else {
      var last := |b| - 1;
      QuotesForConcat(a, b[..last], name);
      assert (a + b)[..|a + b| - 1] == a + b[..last];
      Associate(QuotesFor(a, name), QuotesFor(b[..last], name), if b[last].marketName == name then [b[last]] else []);
    }
  }

  /** A scan answers 1 to 100 names, each with its quotes; the currency is USD and the app 730 where none is given. */
  lemma ScanIs(m: Market, upper: string -> string, q: Query)
    ensures var names, c := Unique(q.names), upper(TrimSpace(q.currency));
      var quotes := m.quotes(names, if c == "" then "USD" else c, if q.appID == 0 then 730 else q.appID);
      && (Scan(m, upper, q).Some? <==> 1 <= |names| <= 100)
      && (Scan(m, upper, q).Some? ==>
            && |Scan(m, upper, q).value| == |names|
            && forall i :: 0 <= i < |names| ==>
                 Scan(m, upper, q).value[i] == Item(names[i], m.order(QuotesFor(quotes, names[i]))))
  {}

  ghost predicate Filed(items: seq<Item>, names: seq<string>, quotes: seq<Quote>) {
    |items| == |names| && forall j :: 0 <= j < |names| ==> items[j] == Item(names[j], QuotesFor(quotes, names[j]))
  }

  lemma FileOneMore(items: seq<Item>, names: seq<string>, index: map<string, nat>, quotes: seq<Quote>, quote: Quote)
    requires Filed(items, names, quotes)
    requires forall i, j :: 0 <= i < j < |names| ==> names[i] != names[j]
    requires forall n :: n in index <==> n in names
    requires forall n <- index :: index[n] < |names| && names[index[n]] == n
    ensures var name := quote.marketName;
      if name in index then
        var at := index[name];
        Filed(items[at := items[at].(quotes := items[at].quotes + [quote])], names, quotes + [quote])
      else Filed(items, names, quotes + [quote])
  {
    assert (quotes + [quote])[..|quotes|] == quotes;
  }

  lemma FiledIsScanned(m: Market, upper: string -> string, q: Query, items: seq<Item>, ordered: seq<Item>)
    requires Filed(items, Unique(q.names), m.quotes(Unique(q.names), Currency(upper, q), App(q)))
    requires |ordered| == |items|
    requires forall j :: 0 <= j < |items| ==> ordered[j] == items[j].(quotes := m.order(items[j].quotes))
    ensures ordered == ScanItems(m, upper, q)
  {}

  /** The scan as the program makes it: quotes are filed under their names through an index. */
  method ScanNames(m: Market, upper: string -> string, q: Query) returns (r: Option<seq<Item>>)
    ensures r == Scan(m, upper, q)
  {
    var names := UniqueNames(q.names);
    if |names| == 0 || |names| > 100 {
      return None;
    }
    var quotes := m.quotes(names, Currency(upper, q), App(q));
    var items := FileQuotes(names, quotes);
    var ordered := OrderQuotes(m, items);
    FiledIsScanned(m, upper, q, items, ordered);
    return Some(ordered);
  }

  method FileQuotes(names: seq<string>, quotes: seq<Quote>) returns (items: seq<Item>)
    requires forall i, j :: 0 <= i < j < |names| ==> names[i] != names[j]
    ensures Filed(items, names, quotes)
  {
    var index: map<string, nat>;
    items, index := EmptyItems(names);
    var i := 0;
    while i < |quotes|
      invariant 0 <= i <= |quotes|
      invariant Filed(items, names, quotes[..i])
    {
      var quote := quotes[i];
      FileOneMore(items, names, index, quotes[..i], quote);
      assert quotes[..i + 1] == quotes[..i] + [quote];
      if quote.marketName in index {
        var at := index[quote.marketName];
        items := items[at := items[at].(quotes := items[at].quotes + [quote])];
      }
      i := i + 1;
    }
    assert quotes[..i] == quotes;
  }

  method EmptyItems(names: seq<string>) returns (items: seq<Item>, index: map<string, nat>)
    requires forall i, j :: 0 <= i < j < |names| ==> names[i] != names[j]
    ensures Filed(items, names, [])
    ensures forall n :: n in index <==> n in names
    ensures forall n <- index :: index[n] < |names| && names[index[n]] == n
  {
    items, index := [], map[];
    var i := 0;
    while i < |names|
      invariant 0 <= i <= |names| && |items| == i
      invariant forall j :: 0 <= j < i ==> items[j] == Item(names[j], [])
      invariant forall n :: n in index <==> n in names[..i]
      invariant forall n <- index :: index[n] < i && names[index[n]] == n
    {
      items := items + [Item(names[i], [])];
      index := index[names[i] := i];
      i := i + 1;
    }
  }

  method OrderQuotes(m: Market, items: seq<Item>) returns (out: seq<Item>)
    ensures |out| == |items|
    ensures forall j :: 0 <= j < |items| ==> out[j] == items[j].(quotes := m.order(items[j].quotes))
  {
    out := items;
    var i := 0;
    while i < |out|
      invariant 0 <= i <= |out| == |items|
      invariant forall j :: 0 <= j < i ==> out[j] == items[j].(quotes := m.order(items[j].quotes))
      invariant forall j :: i <= j < |items| ==> out[j] == items[j]
    {
      out := out[i := out[i].(quotes := m.order(out[i].quotes))];
      i := i + 1;
    }
  }

  // ----- answering from the cache -----

  /** The item kept under a name; a later one replaces an earlier one. */
  function ByName(items: seq<Item>): map<string, Item> {
    if items == [] then map[]
    else ByName(items[..|items| - 1])[items[|items| - 1].marketName := items[|items| - 1]]
  }

  function Select(byName: map<string, Item>, names: seq<string>): seq<Item> {
    if names == [] then []
    else
      var last := |names| - 1;
      Select(byName, names[..last]) + if names[last] in byName then [byName[names[last]]] else []
  }

  /** The items for the requested names, in the order of the request. */
  function OrderItems(items: seq<Item>, requested: seq<string>): seq<Item> {
    Select(ByName(items), Unique(requested))
  }

  /** The last of the items with a name. */
  predicate LastNamed(items: seq<Item>, name: string, i: nat) {
    i < |items| && items[i].marketName == name && forall j :: i < j < |items| ==> items[j].marketName != name
  }

  lemma {:induction false} ByNameIsLast(items: seq<Item>, name: string)
    ensures name in ByName(items) <==> exists i: nat :: LastNamed(items, name, i)
    ensures name in ByName(items) ==> exists i: nat :: LastNamed(items, name, i) && ByName(items)[name] == items[i]
  {
    if items == [] {
    } else {
      var last := |items| - 1;
      ByNameIsLast(items[..last], name);
      if items[last].marketName == name {
        assert LastNamed(items, name, last);
      } else {
        forall i: nat ensures LastNamed(items, name, i) <==> LastNamed(items[..last], name, i) {
          assert i < last ==> items[i] == items[..last][i];
        }
      }
    }
  }

  /** Among distinct names, one stands before another. */
  ghost predicate Before(names: seq<string>, x: string, y: string) {
    exists a, b :: 0 <= a < b < |names| && names[a] == x && names[b] == y
  }

  /** `out` has an item of the table for each of the names that the table has, in their order. */
  ghost predicate InOrder(byName: map<string, Item>, names: seq<string>, out: seq<Item>) {
    && (forall x <- out :: x.marketName in names && x.marketName in byName && x == byName[x.marketName])
    && (forall n <- names :: n in byName ==> byName[n] in out)
    && (forall k, l :: 0 <= k < l < |out| ==> Before(names, out[k].marketName, out[l].marketName))
  }

  lemma BeforeMore(names: seq<string>, x: string, y: string, n: string)
    ensures Before(names, x, y) ==> Before(names + [n], x, y)
    ensures x in names ==> Before(names + [n], x, n)
  {
    if a, b :| 0 <= a < b < |names| && names[a] == x && names[b] == y {
      assert (names + [n])[a] == x && (names + [n])[b] == y;
    }
    if x in names {
      var a :| 0 <= a < |names| && names[a] == x;
      assert (names + [n])[a] == x && (names + [n])[|names|] == n;
    }
  }

  lemma OneMoreInOrder(byName: map<string, Item>, names: seq<string>, out: seq<Item>, n: string)
    requires InOrder(byName, names, out) && (n in byName ==> byName[n].marketName == n)
    ensures InOrder(byName, names + [n], if n in byName then out + [byName[n]] else out)
  {
    var out' := if n in byName then out + [byName[n]] else out;
    forall k, l | 0 <= k < l < |out'| ensures Before(names + [n], out'[k].marketName, out'[l].marketName) {
      assert out'[k] == out[k] && out[k] in out;
      BeforeMore(names, out[k].marketName, out'[l].marketName, n);
    }
  }

  lemma {:induction false} SelectInOrder(byName: map<string, Item>, names: seq<string>)
    requires forall n <- byName :: byName[n].marketName == n
    ensures InOrder(byName, names, Select(byName, names))
  {
    if names == [] {
    } else {
      var front, n := names[..|names| - 1], names[|names| - 1];
      SelectInOrder(byName, front);
      OneMoreInOrder(byName, front, Select(byName, front), n);
      assert names == front + [n];
    }
  }

  ghost predicate HasLast(items: seq<Item>, name: string) {
    exists i: nat :: LastNamed(items, name, i)
  }

  /**
    The items for the requested names: each is the last one of its name, each requested name that has an
    item is there, and they come in the order in which the names were first requested.
   */
  lemma OrderItemsAre(items: seq<Item>, requested: seq<string>)
    ensures var out, names := OrderItems(items, requested), Unique(requested);
      && (forall x <- out ::
            x.marketName in names && exists i: nat :: LastNamed(items, x.marketName, i) && x == items[i])
      && (forall n <- names :: HasLast(items, n) ==> exists x <- out :: x.marketName == n)
      && (forall k, l :: 0 <= k < l < |out| ==> Before(names, out[k].marketName, out[l].marketName))
  {
    var byName, names := ByName(items), Unique(requested);
    forall n: string ensures n in byName <==> HasLast(items, n)
      ensures n in byName ==> exists i: nat :: LastNamed(items, n, i) && byName[n] == items[i]
    {
      ByNameIsLast(items, n);
    }
    SelectInOrder(byName, names);
  }

  method IndexItems(items: seq<Item>) returns (byName: map<string, Item>)
    ensures byName == ByName(items)
  {
    byName := map[];
    var i := 0;
    while i < |items|
      invariant 0 <= i <= |items| && byName == ByName(items[..i])
    {
      assert items[..i + 1][..i] == items[..i];
      byName := byName[items[i].marketName := items[i]];
      i := i + 1;
    }
    assert items[..i] == items;
  }

  ghost predicate Ordered(byName: map<string, Item>, requested: seq<string>, seen: set<string>, out: seq<Item>) {
    seen == (set n <- Unique(requested)) && out == Select(byName, Unique(requested))
  }

  lemma OrderedOneMore(byName: map<string, Item>, requested: seq<string>, seen: set<string>, out: seq<Item>,
                       asked: string)
    requires Ordered(byName, requested, seen, out)
    ensures var name := TrimSpace(asked);
      if name == "" || name in seen then Ordered(byName, requested + [asked], seen, out)
      else Ordered(byName, requested + [asked], seen + {name}, out + if name in byName then [byName[name]] else [])
  {}

  method OrderItemsOf(items: seq<Item>, requested: seq<string>) returns (out: seq<Item>)
    ensures out == OrderItems(items, requested)
  {
    var byName := IndexItems(items);
    out := [];
    var seen := {};
    var i := 0;
    while i < |requested|
      invariant 0 <= i <= |requested|
      invariant Ordered(byName, requested[..i], seen, out)
    {
      OrderedOneMore(byName, requested[..i], seen, out, requested[i]);
      assert requested[..i + 1] == requested[..i] + [requested[i]];
      var name := TrimSpace(requested[i]);
      i := i + 1;
      if name == "" || name in seen {
        continue;
      }
      seen := seen + {name};
      if name in byName {
        out := out + [byName[name]];
      } else {
        assert out + [] == out;
      }
    }
    assert requested[..i] == requested;
  }

  lemma {:induction false} ByNameHas(items: seq<Item>, i: nat)
    requires i < |items| && forall j, k :: 0 <= j < k < |items| ==> items[j].marketName != items[k].marketName
    ensures items[i].marketName in ByName(items) && ByName(items)[items[i].marketName] == items[i]
  {
    var last := |items| - 1;
    if i < last {
      ByNameHas(items[..last], i);
      assert items[i].marketName != items[last].marketName;
    }
  }

  lemma {:induction false} SelectAll(byName: map<string, Item>, names: seq<string>)
    requires forall n <- names :: n in byName
    ensures |Select(byName, names)| == |names|
    ensures forall i :: 0 <= i < |names| ==> Select(byName, names)[i] == byName[names[i]]
  {
    if names == [] {
    } else {
      SelectAll(byName, names[..|names| - 1]);
    }
  }

  lemma ScannedByName(m: Market, upper: string -> string, q: Query, name: string)
    requires name in Unique(q.names)
    ensures var byName := ByName(ScanItems(m, upper, q));
      name in byName &&
      byName[name] == Item(name, m.order(QuotesFor(m.quotes(Unique(q.names), Currency(upper, q), App(q)), name)))
  {
    var i :| 0 <= i < |Unique(q.names)| && Unique(q.names)[i] == name;
    ByNameHas(ScanItems(m, upper, q), i);
  }

  /**
    The cache is transparent: the items scanned for one query, in the order of another with the same
    key, are the items that a scan of the other returns.
   */
  lemma CachedItemsAreScanned(m: Market, upper: string -> string, p: Query, q: Query)
    requires PerName(m) && Plain(p) && Plain(q) && Key(upper, p) == Key(upper, q)
    ensures OrderItems(ScanItems(m, upper, p), q.names) == ScanItems(m, upper, q)
    ensures Scan(m, upper, p).Some? <==> Scan(m, upper, q).Some?
  {
    SameKeyIff(upper, p, q);
    var a, b := Unique(p.names), Unique(q.names);
    var byName := ByName(ScanItems(m, upper, p));
    forall n <- b ensures n in a && n in byName {
      assert n in NameSet(q);
      ScannedByName(m, upper, p, n);
    }
    SelectAll(byName, b);
    forall i | 0 <= i < |b| ensures OrderItems(ScanItems(m, upper, p), q.names)[i] == ScanItems(m, upper, q)[i] {
      assert b[i] in b;
      ScannedByName(m, upper, p, b[i]);
    }
    SameCount(a, b);
  }

  lemma SameCount(a: seq<string>, b: seq<string>)
    requires forall i, j :: 0 <= i < j < |a| ==> a[i] != a[j]
    requires forall i, j :: 0 <= i < j < |b| ==> b[i] != b[j]
    requires (set n <- a) == (set n <- b)
    ensures |a| == |b|
  {
    CountDistinct(a);
    CountDistinct(b);
  }

  lemma {:induction false} CountDistinct(a: seq<string>)
    requires forall i, j :: 0 <= i < j < |a| ==> a[i] != a[j]
    ensures |(set n <- a)| == |a|
  {
    if a == [] {
    } else {
      var last := |a| - 1;
      CountDistinct(a[..last]);
      assert a == a[..last] + [a[last]];
      assert (set n <- a) == (set n <- a[..last]) + {a[last]};
    }
  }
}
