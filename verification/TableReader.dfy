/** What a reader of GitHub Flavored Markdown tables (section 4.10 of its specification)
    takes back out of a row. Two readings of "escaped" are covered: a pipe is escaped
    when a backslash stands before it, or, with `paired`, when that backslash is not
    itself escaped by the one before it. And two of "trimmed": the one space that the
    renderer puts on each side of a cell is taken off, or, with `trims`, all of them. */
module TableReader {
  import opened Strings
  import opened Table

  // ----- Reading -----

  /** Whether c escapes the character after it. */
  predicate Escapes(c: char, esc: bool, paired: bool) {
    c == '\\' && !(paired && esc)
  }

  /** One more character at the front of the first piece. */
  function Glue(c: char, pieces: seq<string>): (r: seq<string>)
    requires |pieces| > 0
    ensures |r| == |pieces|
  {
    [[c] + pieces[0]] + pieces[1..]
  }

  /** The pieces between unescaped pipes; `esc` says the first character is escaped. */
  function Scan(s: string, esc: bool, paired: bool): (pieces: seq<string>)
    ensures |pieces| > 0
  {
    if s == "" then [""]
    else
      var rest := Scan(s[1..], Escapes(s[0], esc, paired), paired);
      if s[0] == '|' && !esc then [""] + rest else Glue(s[0], rest)
  }

  datatype Reader = Reader(paired: bool, trims: bool)

  /** The spaces that set a cell off from its pipes. */
  function Unpad(piece: string): string {
    if |piece| >= 2 && piece[0] == ' ' && piece[|piece| - 1] == ' ' then piece[1..|piece| - 1] else piece
  }

  function TrimFront(s: string): string {
    if s != "" && s[0] == ' ' then TrimFront(s[1..]) else s
  }

  function TrimBack(s: string): string {
    if s != "" && s[|s| - 1] == ' ' then TrimBack(s[..|s| - 1]) else s
  }

  function ReadCell(piece: string, rd: Reader): string {
    Unescape(if rd.trims then TrimBack(TrimFront(piece)) else Unpad(piece))
  }

  /** The pieces of a row between its first and last pipe. */
  function SplitRow(row: string, paired: bool): seq<string> {
    var pieces := Scan(row, false, paired);
    if |pieces| < 2 then [] else pieces[1..|pieces| - 1]
  }

  function ReadCells(pieces: seq<string>, rd: Reader): seq<string> {
    seq(|pieces|, i requires 0 <= i < |pieces| => ReadCell(pieces[i], rd))
  }

  function ReadRow(row: string, rd: Reader): seq<string> {
    ReadCells(SplitRow(row, rd.paired), rd)
  }

  /** A cell's text with its escaped pipes as pipes. */
  function Unescape(s: string): string {
    if s == "" then ""
    else if |s| >= 2 && s[0] == '\\' && s[1] == '|' then "|" + Unescape(s[2..])
    else [s[0]] + Unescape(s[1..])
  }

  // ----- Which texts are one cell -----

  /** The number of backslashes right before position i. */
  function Run(s: string, i: nat): nat
    requires i <= |s|
  {
    if i > 0 && s[i - 1] == '\\' then 1 + Run(s, i - 1) else 0
  }

  predicate EscapedAt(s: string, i: nat, paired: bool)
    requires i <= |s|
  {
    if paired then Run(s, i) % 2 == 1 else Run(s, i) > 0
  }

  /** Every pipe in s is escaped. */
  predicate OneCell(s: string, paired: bool) {
    forall i | 0 <= i < |s| :: s[i] == '|' ==> EscapedAt(s, i, paired)
  }

  /** The same, going through s: every pipe finds `esc` as wanted. */
  predicate Pipes(s: string, esc: bool, paired: bool, want: bool) {
    s == "" || ((s[0] == '|' ==> esc == want) && Pipes(s[1..], Escapes(s[0], esc, paired), paired, want))
  }

  lemma {:induction false} PipesAt(s: string, i: nat, paired: bool, want: bool)
    requires i <= |s|
    ensures Pipes(s[i..], EscapedAt(s, i, paired), paired, want) <==>
            forall j | i <= j < |s| :: s[j] == '|' ==> EscapedAt(s, j, paired) == want
    decreases |s| - i
  {
    hide EscapedAt;
    if i < |s| {
      EscapedNext(s, i, paired);
      assert s[i..][1..] == s[i + 1..];
      PipesAt(s, i + 1, paired, want);
    }
  }

  lemma EscapedNext(s: string, i: nat, paired: bool)
    requires i < |s|
    ensures EscapedAt(s, i + 1, paired) == Escapes(s[i], EscapedAt(s, i, paired), paired)
  {
  }

  lemma OneCellIs(s: string, paired: bool)
    ensures OneCell(s, paired) <==> Pipes(s, false, paired, true)
  {
    PipesAt(s, 0, paired, true);
    assert s[0..] == s;
  }

  /** A text whose pipes are all escaped is one piece, any other is more. */
  lemma {:induction false} ScanWhole(s: string, esc: bool, paired: bool)
    ensures if Pipes(s, esc, paired, true) then Scan(s, esc, paired) == [s] else |Scan(s, esc, paired)| > 1
  {
    if s != "" {
      ScanWhole(s[1..], Escapes(s[0], esc, paired), paired);
      assert [s[0]] + s[1..] == s;
    }
  }

  function Padded(x: string): string { " " + x + " " }

  lemma {:induction false} PipesSpace(x: string, esc: bool, paired: bool)
    ensures Pipes(x + " ", esc, paired, true) <==> Pipes(x, esc, paired, true)
  {
    if x != "" {
      PipesSpace(x[1..], Escapes(x[0], esc, paired), paired);
      assert (x + " ")[1..] == x[1..] + " ";
    } else {
      assert x + " " == " " && " "[1..] == "";
      assert Pipes("", Escapes(' ', esc, paired), paired, true);
    }
  }

  lemma PaddedPieces(x: string, paired: bool)
    ensures if OneCell(x, paired) then Scan(Padded(x), false, paired) == [Padded(x)]
            else |Scan(Padded(x), false, paired)| > 1
  {
    hide OneCell, Scan;
    OneCellIs(x, paired);
    PipesSpace(x, false, paired);
    assert Padded(x)[1..] == x + " ";
    ScanWhole(Padded(x), false, paired);
  }

  // ----- Reading a row -----

  lemma ScanStep(c: char, t: string, esc: bool, paired: bool)
    ensures var rest := Scan(t, Escapes(c, esc, paired), paired);
            Scan([c] + t, esc, paired) == if c == '|' && !esc then [""] + rest else Glue(c, rest)
  {
    assert ([c] + t)[1..] == t;
  }

  lemma GlueAppend(c: char, a: seq<string>, r: seq<string>)
    requires |a| > 0
    ensures Glue(c, a + r) == Glue(c, a) + r
  {
    assert (a + r)[1..] == a[1..] + r;
  }

  lemma Assoc1(a: seq<string>, b: seq<string>, c: seq<string>)
    ensures a + (b + c) == a + b + c
  {
  }

  lemma GlueOne(c: char, x: string, r: seq<string>)
    ensures Glue(c, [x] + r) == [[c] + x] + r
  {
  }

  function Push(c: char, esc: bool, pieces: seq<string>): seq<string>
    requires |pieces| > 0
  {
    if c == '|' && !esc then [""] + pieces else Glue(c, pieces)
  }

  lemma PushAppend(c: char, esc: bool, a: seq<string>, r: seq<string>)
    requires |a| > 0
    ensures Push(c, esc, a + r) == Push(c, esc, a) + r
  {
    hide Glue;
    GlueAppend(c, a, r);
    Assoc1([""], a, r);
  }

  lemma ScanHead(x: string, u: string, esc: bool, paired: bool)
    requires x != ""
    ensures Scan(x + u, esc, paired) == Push(x[0], esc, Scan(x[1..] + u, Escapes(x[0], esc, paired), paired))
  {
    hide Scan, Glue;
    ScanStep(x[0], x[1..] + u, esc, paired);
    assert x + u == [x[0]] + (x[1..] + u);
  }

  lemma {:induction false} ScanOver(x: string, u: string, v: string, r: seq<string>, esc: bool, paired: bool)
    requires forall e :: Scan(u, e, paired) == Scan(v, e, paired) + r
    ensures Scan(x + u, esc, paired) == Scan(x + v, esc, paired) + r
  {
    hide Scan, Escapes, Push;
    if x == "" {
      assert x + u == u && x + v == v;
    } else {
      var e := Escapes(x[0], esc, paired);
      ScanOver(x[1..], u, v, r, e, paired);
      PushAppend(x[0], esc, Scan(x[1..] + v, e, paired), r);
      ScanHead(x, u, esc, paired);
      ScanHead(x, v, esc, paired);
    }
  }

  /** A space closes any escape, so the pipe after it ends the piece. */
  lemma SpaceThenPipe(rest: string, esc: bool, paired: bool)
    ensures Scan([' ', '|'] + rest, esc, paired) == Scan([' '], esc, paired) + Scan(rest, false, paired)
  {
    hide Scan;
    ScanEmpty(paired);
    ScanStep('|', rest, false, paired);
    ScanStep(' ', ['|'] + rest, esc, paired);
    ScanStep(' ', [], esc, paired);
    assert [' ', '|'] + rest == [' '] + (['|'] + rest) && [' '] + [] == [' '];
  }

  lemma ScanToPipe(x: string, rest: string, esc: bool, paired: bool)
    ensures Scan(x + " |" + rest, esc, paired) == Scan(x + " ", esc, paired) + Scan(rest, false, paired)
  {
    hide Scan;
    forall e
      ensures Scan([' ', '|'] + rest, e, paired) == Scan([' '], e, paired) + Scan(rest, false, paired)
    {
      SpaceThenPipe(rest, e, paired);
    }
    ScanOver(x, [' ', '|'] + rest, [' '], Scan(rest, false, paired), esc, paired);
    assert x + " |" + rest == x + ([' ', '|'] + rest);
  }

  /** The pieces of all the cells, each between its spaces. */
  function Pieces(cells: seq<string>, paired: bool): seq<string> {
    if cells == [] then [] else Scan(Padded(cells[0]), false, paired) + Pieces(cells[1..], paired)
  }

  lemma {:induction false} ScanCells(cells: seq<string>, paired: bool)
    requires cells != []
    ensures Scan(" " + Join(cells, " | ") + " |", false, paired) == Pieces(cells, paired) + [""]
  {
    hide Scan;
    var x, others := cells[0], cells[1..];
    var rest := if others == [] then "" else " " + Join(others, " | ") + " |";
    assert " " + Join(cells, " | ") + " |" == " " + x + " |" + rest by {
      if others != [] { FirstCell(x, Join(others, " | ")); }
    }
    ScanToPipe(" " + x, rest, false, paired);
    if others == [] {
      ScanEmpty(paired);
    } else {
      ScanCells(others, paired);
    }
  }

  lemma FirstCell(x: string, j: string)
    ensures " " + (x + " | " + j) + " |" == " " + x + " |" + (" " + j + " |")
  {
  }

  lemma ScanEmpty(paired: bool)
    ensures Scan("", false, paired) == [""]
  {
  }

  lemma RowPieces(cells: seq<string>, paired: bool)
    requires cells != []
    ensures SplitRow(Row(cells), paired) == Pieces(cells, paired)
  {
    hide Scan, Pieces;
    var tail := " " + Join(cells, " | ") + " |";
    ScanCells(cells, paired);
    assert Row(cells) == "|" + tail;
    ScanBar(tail, paired);
    var p := Pieces(cells, paired);
    assert ([""] + (p + [""]))[1..|p| + 1] == p;
  }

  lemma ScanBar(tail: string, paired: bool)
    ensures Scan("|" + tail, false, paired) == [""] + Scan(tail, false, paired)
  {
    assert ("|" + tail)[1..] == tail;
  }

  function PaddedAll(cells: seq<string>): seq<string> {
    seq(|cells|, i requires 0 <= i < |cells| => Padded(cells[i]))
  }

  predicate AllOne(cells: seq<string>, paired: bool) {
    forall i | 0 <= i < |cells| :: OneCell(cells[i], paired)
  }

  lemma {:induction false} PiecesCount(cells: seq<string>, paired: bool)
    ensures if AllOne(cells, paired) then Pieces(cells, paired) == PaddedAll(cells)
            else |Pieces(cells, paired)| > |cells|
  {
    hide OneCell, Scan, Padded;
    if cells != [] {
      PaddedPieces(cells[0], paired);
      PiecesCount(cells[1..], paired);
      AllOneFirst(cells, paired);
      assert PaddedAll(cells) == [Padded(cells[0])] + PaddedAll(cells[1..]);
      AtLeast(cells[1..], paired);
    }
  }

  lemma AllOneFirst(cells: seq<string>, paired: bool)
    requires cells != []
    ensures AllOne(cells, paired) <==> OneCell(cells[0], paired) && AllOne(cells[1..], paired)
  {
    hide OneCell;
    assert cells == [cells[0]] + cells[1..];
  }

  lemma {:induction false} AtLeast(cells: seq<string>, paired: bool)
    ensures |Pieces(cells, paired)| >= |cells|
  {
    hide Scan, Padded;
    if cells != [] { AtLeast(cells[1..], paired); }
  }

  /** A row is split into its cells exactly when every pipe in them is escaped. */
  lemma RowExactly(cells: seq<string>, paired: bool)
    requires cells != []
    ensures SplitRow(Row(cells), paired) == PaddedAll(cells) <==> AllOne(cells, paired)
    ensures !AllOne(cells, paired) ==> |SplitRow(Row(cells), paired)| > |cells|
  {
    hide AllOne, Pieces, SplitRow, Row;
    RowPieces(cells, paired);
    PiecesCount(cells, paired);
  }

  /** A cell is read as the text wanted. */
  predicate Shows(cell: string, want: string, rd: Reader) {
    OneCell(cell, rd.paired) && ReadCell(Padded(cell), rd) == want
  }

  /** A row is read as the texts wanted exactly when each of its cells is. */
  lemma RowReadsExactly(cells: seq<string>, wants: seq<string>, rd: Reader)
    requires cells != [] && |wants| == |cells|
    ensures ReadRow(Row(cells), rd) == wants <==> forall i | 0 <= i < |cells| :: Shows(cells[i], wants[i], rd)
  {
    hide OneCell, SplitRow, Row, ReadCell, Padded;
    RowExactly(cells, rd.paired);
    if AllOne(cells, rd.paired) {
      assert ReadRow(Row(cells), rd) == ReadCells(PaddedAll(cells), rd);
      forall i | 0 <= i < |cells|
        ensures ReadRow(Row(cells), rd)[i] == ReadCell(Padded(cells[i]), rd)
      {
      }
    }
  }

  lemma TwoPieces(a: string, b: string, paired: bool)
    requires '|' !in a && '|' !in b && '\\' !in a && '\\' !in b
    ensures |Pieces([a + "|" + b], paired)| == 2
  {
    hide Scan;
    var x := a + "|" + b;
    assert Padded(x) == (" " + a) + ("|" + (b + " "));
    ScanClear(" " + a, b + " ", paired);
    assert [x][1..] == [];
    ScanAlone(b + " ", paired);
  }

  lemma {:induction false} ScanClear(a: string, rest: string, paired: bool)
    requires '|' !in a && '\\' !in a
    ensures Scan(a + ("|" + rest), false, paired) == [a] + Scan(rest, false, paired)
  {
    hide Scan, Glue;
    if a == "" {
      assert a + ("|" + rest) == "|" + rest;
      ScanBar(rest, paired);
    } else {
      ScanClear(a[1..], rest, paired);
      ScanHead(a, "|" + rest, false, paired);
      GlueOne(a[0], a[1..], Scan(rest, false, paired));
      assert [a[0]] + a[1..] == a;
    }
  }

  lemma {:induction false} ScanAlone(b: string, paired: bool)
    requires '|' !in b && '\\' !in b
    ensures |Scan(b, false, paired)| == 1
  {
    if b != "" { ScanAlone(b[1..], paired); }
  }

  /** A table with the one key "a|b": its header is read as two cells. */
  lemma HeaderPipeSplits(rd: Reader)
    ensures |ReadRow(Row(["a|b"]), rd)| == 2
  {
    hide SplitRow, Row, Pieces;
    assert "a" + "|" + "b" == "a|b";
    TwoPieces("a", "b", rd.paired);
    RowPieces(["a|b"], rd.paired);
  }

  // ----- Reading one cell -----

  lemma {:induction false} UnescapeShape(s: string)
    ensures |Unescape(s)| <= |s|
    ensures Unescape(s) == s <==> forall i | 0 <= i < |s| - 1 :: !(s[i] == '\\' && s[i + 1] == '|')
    ensures Unescape(s) == s || |Unescape(s)| < |s|
  {
    if s != "" {
      if |s| >= 2 && s[0] == '\\' && s[1] == '|' {
        UnescapeShape(s[2..]);
      } else {
        UnescapeShape(s[1..]);
        assert s == [s[0]] + s[1..];
        assert forall i | 0 < i < |s| - 1 :: s[i] == s[1..][i - 1] && s[i + 1] == s[1..][i];
      }
    }
  }

  predicate EdgeFree(s: string) {
    s == "" || (s[0] != ' ' && s[|s| - 1] != ' ')
  }

  lemma {:induction false} TrimFrontShape(s: string)
    ensures |TrimFront(s)| <= |s| && (TrimFront(s) == s <==> s == "" || s[0] != ' ')
    ensures TrimFront(s) == s || |TrimFront(s)| < |s|
    ensures |Unescape(TrimFront(s))| <= |Unescape(s)|
    ensures TrimFront(s) != s ==> |Unescape(TrimFront(s))| < |Unescape(s)|
    ensures TrimFront(s) != "" ==> TrimFront(s)[|TrimFront(s)| - 1] == s[|s| - 1]
  {
    if s != "" && s[0] == ' ' {
      TrimFrontShape(s[1..]);
      assert Unescape(s) == [s[0]] + Unescape(s[1..]);
    }
  }

  lemma UnescapePipe(t: string)
    ensures Unescape("\\|" + t) == "|" + Unescape(t)
  {
    assert ("\\|" + t)[2..] == t;
  }

  lemma UnescapePlain(c: char, t: string)
    requires c != '\\' || t == "" || t[0] != '|'
    ensures Unescape([c] + t) == [c] + Unescape(t)
  {
    assert ([c] + t)[1..] == t;
  }

  lemma {:induction false} UnescapeSpace(s: string)
    ensures Unescape(s + " ") == Unescape(s) + " "
  {
    hide Unescape;
    if s == "" {
      UnescapePlain(' ', "");
      NothingToUnescape();
      assert s + " " == [' '] + "";
    } else if |s| >= 2 && s[0] == '\\' && s[1] == '|' {
      UnescapeSpace(s[2..]);
      UnescapePipe(s[2..]);
      UnescapePipe(s[2..] + " ");
      assert s == "\\|" + s[2..] && s + " " == "\\|" + (s[2..] + " ");
    } else {
      UnescapeSpace(s[1..]);
      UnescapePlain(s[0], s[1..]);
      UnescapePlain(s[0], s[1..] + " ");
      assert s == [s[0]] + s[1..] && s + " " == [s[0]] + (s[1..] + " ");
    }
  }

  lemma NothingToUnescape()
    ensures Unescape("") == ""
  {
  }

  lemma {:induction false} TrimBackShape(s: string)
    ensures |TrimBack(s)| <= |s| && (TrimBack(s) == s <==> s == "" || s[|s| - 1] != ' ')
    ensures |Unescape(TrimBack(s))| <= |Unescape(s)|
    ensures TrimBack(s) != s ==> |Unescape(TrimBack(s))| < |Unescape(s)| && |TrimBack(s)| < |s|
  {
    hide Unescape;
    if s != "" && s[|s| - 1] == ' ' {
      var f := s[..|s| - 1];
      TrimBackShape(f);
      UnescapeSpace(f);
      assert s == f + " ";
    }
  }

  lemma {:induction false} TrimBackSpace(s: string)
    ensures TrimBack(s + " ") == TrimBack(s)
  {
    assert (s + " ")[..|s|] == s;
  }

  /** A trimming reader takes more than the padding off exactly when the cell has blanks
      at its edges, and then its text is shorter. */
  lemma TrimmedCell(x: string)
    ensures var t := TrimBack(TrimFront(Padded(x)));
            && |t| <= |x| && |Unescape(t)| <= |Unescape(x)|
            && (EdgeFree(x) ==> t == x)
            && (!EdgeFree(x) ==> |t| < |x| && |Unescape(t)| < |Unescape(x)|)
  {
    hide Unescape, TrimBack, TrimFront;
    TrimPadding(x);
    TrimFrontShape(x);
    TrimBackShape(TrimFront(x));
  }

  lemma TrimPadding(x: string)
    ensures TrimBack(TrimFront(Padded(x))) == TrimBack(TrimFront(x))
  {
    hide TrimBack;
    assert Padded(x)[1..] == x + " ";
    TrimFrontSpace(x);
    if TrimFront(x) == "" {
      OnlySpaces();
    } else {
      TrimBackSpace(TrimFront(x));
    }
  }

  lemma {:induction false} TrimFrontSpace(x: string)
    ensures TrimFront(x + " ") == if TrimFront(x) == "" then "" else TrimFront(x) + " "
  {
    if x == "" {
      assert x + " " == " " && " "[1..] == "";
    } else if x[0] == ' ' {
      assert (x + " ")[1..] == x[1..] + " ";
      TrimFrontSpace(x[1..]);
    }
  }

  lemma OnlySpaces()
    ensures TrimBack("") == ""
  {
  }

  /** What the reader makes of a cell that is one piece. */
  lemma CellIsRead(x: string, rd: Reader)
    ensures |ReadCell(Padded(x), rd)| <= |Unescape(x)|
    ensures ReadCell(Padded(x), rd) == Unescape(x) <==> rd.trims ==> EdgeFree(x)
  {
    hide Unescape, EdgeFree, TrimBack, TrimFront;
    TrimmedCell(x);
    assert Unpad(Padded(x)) == x;
  }

  /** A key stands in the table as it is, so it is read back exactly when it holds no
      pipe at all, escaped or not, and no blanks at its edges that the reader trims. */
  predicate KeyOk(key: string, rd: Reader) {
    '|' !in key && (rd.trims ==> EdgeFree(key))
  }

  lemma KeyReadsExactly(key: string, rd: Reader)
    ensures Shows(key, key, rd) <==> KeyOk(key, rd)
  {
    hide ReadCell, EdgeFree, Unescape, Padded, Run;
    CellIsRead(key, rd);
    UnescapeShape(key);
    if OneCell(key, rd.paired) && '|' in key {
      var i :| 0 <= i < |key| && key[i] == '|';
      assert EscapedAt(key, i, rd.paired);
      RunPositive(key, i);
      assert key[i - 1] == '\\' && key[i - 1 + 1] == '|';
    }
  }

  lemma RunPositive(s: string, i: nat)
    requires i <= |s| && Run(s, i) > 0
    ensures i > 0 && s[i - 1] == '\\'
  {
  }

  lemma {:induction false} UnescapeCell(val: string)
    ensures Unescape(CellText(val)) == Spaced(val)
    ensures val != "" ==> CellText(val) != "" && (CellText(val)[0] == '|' <==> false)
  {
    if val != "" {
      CellTextFirst(val);
      UnescapeCell(val[1..]);
      var rest := CellText(val[1..]);
      if val[0] == '|' {
        assert CellText(val)[2..] == rest;
      } else {
        assert CellText(val)[1..] == rest;
      }
    }
  }

  lemma CellTextFirst(val: string)
    requires val != ""
    ensures CellText(val)
            == (if val[0] == '|' then "\\|" else if val[0] == '\n' then " " else [val[0]]) + CellText(val[1..])
  {
    var e := EscapePipes(val[1..]);
    if val[0] == '|' {
      assert ("\\|" + e)[1..] == "|" + e && ("|" + e)[1..] == e;
      assert Spaced("|" + e) == "|" + Spaced(e);
      assert Spaced("\\|" + e) == "\\" + Spaced("|" + e);
    } else {
      assert ([val[0]] + e)[1..] == e;
    }
  }

  lemma PipesStep(c: char, t: string, esc: bool, paired: bool, want: bool)
    ensures Pipes([c] + t, esc, paired, want) <==>
            (c == '|' ==> esc == want) && Pipes(t, Escapes(c, esc, paired), paired, want)
  {
    assert ([c] + t)[1..] == t;
  }

  lemma NoPipes(esc: bool, paired: bool, want: bool)
    ensures Pipes("", esc, paired, want)
  {
  }

  /** The first character of a value, rendered: its pipe is escaped unless the backslash
      before it already was, for a reader that pairs them. */
  lemma CellStep(val: string, esc: bool, paired: bool)
    requires val != ""
    ensures Pipes(CellText(val), esc, paired, true) <==>
            && (val[0] == '|' ==> !(paired && esc))
            && Pipes(CellText(val[1..]), Escapes(val[0], esc, paired), paired, true)
  {
    hide Pipes, CellText;
    CellTextFirst(val);
    var rest := CellText(val[1..]);
    if val[0] == '|' {
      assert "\\|" + rest == ['\\'] + (['|'] + rest);
      PipesStep('\\', ['|'] + rest, esc, paired, true);
      PipesStep('|', rest, Escapes('\\', esc, paired), paired, true);
    } else {
      PipesStep(if val[0] == '\n' then ' ' else val[0], rest, esc, paired, true);
    }
  }

  /** Under the plain reading every rendered value is one cell. */
  lemma {:induction false} CellIsOne(val: string, esc: bool)
    ensures Pipes(CellText(val), esc, false, true)
  {
    hide Pipes, CellText;
    if val == "" {
      NoCellText();
      NoPipes(esc, false, true);
    } else {
      CellStep(val, esc, false);
      CellIsOne(val[1..], Escapes(val[0], esc, false));
    }
  }

  lemma {:induction false} CellIsOnePaired(val: string, esc: bool)
    ensures Pipes(CellText(val), esc, true, true) <==> Pipes(val, esc, true, false)
  {
    hide Pipes, CellText;
    if val == "" {
      NoCellText();
      NoPipes(esc, true, true);
      NoPipes(esc, true, false);
    } else {
      CellStep(val, esc, true);
      CellIsOnePaired(val[1..], Escapes(val[0], esc, true));
      PipesStep(val[0], val[1..], esc, true, false);
      assert val == [val[0]] + val[1..];
    }
  }

  /** No pipe stands behind an odd number of backslashes, or the reader does not count. */
  predicate Safe(val: string, paired: bool) {
    paired ==> forall i | 0 <= i < |val| :: val[i] == '|' ==> Run(val, i) % 2 == 0
  }

  /** A rendered value is one cell exactly when it is safe for the reader. */
  lemma CellIsOneExactly(val: string)
    ensures OneCell(CellText(val), false)
    ensures forall paired :: OneCell(CellText(val), paired) <==> Safe(val, paired)
  {
    hide Run, CellText, Pipes;
    OneCellIs(CellText(val), false);
    CellIsOne(val, false);
    OneCellIs(CellText(val), true);
    CellIsOnePaired(val, false);
    PipesAt(val, 0, true, false);
    assert val[0..] == val;
    RunStart(val);
  }

  lemma RunStart(val: string)
    ensures Run(val, 0) == 0
  {
  }

  lemma {:induction false} TextEdges(val: string)
    ensures |Spaced(val)| == |val|
    ensures (CellText(val) == "" <==> val == "") && (Spaced(val) == "" <==> val == "")
    ensures val != "" ==> (CellText(val)[0] == ' ' <==> Spaced(val)[0] == ' ')
    ensures val != "" ==> (CellText(val)[|CellText(val)| - 1] == ' ' <==> Spaced(val)[|val| - 1] == ' ')
  {
    if val != "" {
      CellTextFirst(val);
      TextEdges(val[1..]);
    } else {
      NoCellText();
    }
  }

  /** A value is read back, with newlines as spaces, exactly when it is safe for the
      reader and has no blanks, newlines among them, at edges that the reader trims. */
  predicate ValueOk(val: string, rd: Reader) {
    Safe(val, rd.paired) && (rd.trims ==> EdgeFree(Spaced(val)))
  }

  lemma ValueReadsExactly(val: string, rd: Reader)
    ensures Shows(CellText(val), Spaced(val), rd) <==> ValueOk(val, rd)
  {
    hide ReadCell, Unescape, Padded, Run, Safe, CellText, Spaced, OneCell;
    CellIsRead(CellText(val), rd);
    CellIsOneExactly(val);
    UnescapeCell(val);
    TextEdges(val);
  }

  /** The value of a backslash and a pipe is rendered as two backslashes and a pipe: one
      cell and the value itself for a reader that looks one byte back, two cells for one
      that pairs backslashes. */
  lemma BackslashPipeSplits(trims: bool)
    ensures CellText("\\|") == "\\\\|"
    ensures ReadRow(Row([CellText("\\|")]), Reader(false, trims)) == ["\\|"]
    ensures |ReadRow(Row([CellText("\\|")]), Reader(true, trims))| == 2
  {
    hide SplitRow, Row, CellText, Unescape, Scan, Shows, ReadCell, ReadRow;
    var val := "\\|";
    BackslashPipeText();
    ValueReadsExactly(val, Reader(false, trims));
    assert Spaced(val) == val by { assert val[1..] == "|" && "|"[1..] == ""; }
    RowReadsExactly([CellText(val)], [val], Reader(false, trims));
    RowPieces([CellText(val)], true);
    BackslashPipePieces();
    SplitCount(Row([CellText(val)]), Reader(true, trims));
  }

  lemma SplitCount(row: string, rd: Reader)
    ensures |ReadRow(row, rd)| == |SplitRow(row, rd.paired)|
  {
  }

  lemma BackslashPipeText()
    ensures CellText("\\|") == "\\\\|"
  {
    hide CellText;
    var val := "\\|";
    assert val[1..] == "|" && "|"[1..] == "";
    CellTextFirst(val);
    CellTextFirst("|");
    assert CellText("") == "" by { NoCellText(); }
    assert "\\|" + "" == "\\|" && ['\\'] + "\\|" == "\\\\|";
  }

  lemma NoCellText()
    ensures CellText("") == ""
  {
  }

  lemma BackslashPipePieces()
    ensures |Pieces(["\\\\|"], true)| == 2
  {
    hide Scan;
    var c := "\\\\|";
    assert [c][1..] == [];
    var t := "| ";
    ScanBar(" ", true);
    ScanAlone(" ", true);
    ScanStep('\\', t, true, true);
    ScanStep('\\', ['\\'] + t, false, true);
    ScanStep(' ', ['\\'] + (['\\'] + t), false, true);
    assert "|" + " " == t && Padded(c) == [' '] + (['\\'] + (['\\'] + t));
  }

  // ----- Reading the line of dashes -----

  lemma {:induction false} DashesFront(n: nat)
    requires n > 0
    ensures Dashes(n) == "---|" + Dashes(n - 1)
  {
    if n > 1 {
      DashesFront(n - 1);
      MoveBar(Dashes(n - 2));
    } else {
      assert Dashes(0) == "";
    }
  }

  lemma MoveBar(d: string)
    ensures ("---|" + d) + "---|" == "---|" + (d + "---|")
  {
  }

  lemma DashPiece(d: string, paired: bool)
    ensures Scan("---|" + d, false, paired) == ["---"] + Scan(d, false, paired)
  {
    hide Scan, Glue;
    var rest := Scan(d, false, paired);
    ScanStep('|', d, false, paired);
    assert ['-'] + "--" == "---" && ['-'] + "-" == "--" && ['-'] + "" == "-";
    ScanPlain('-', ['|'] + d, "", rest, paired);
    ScanPlain('-', ['-'] + (['|'] + d), "-", rest, paired);
    ScanPlain('-', ['-'] + (['-'] + (['|'] + d)), "--", rest, paired);
    assert ['-'] + (['-'] + (['-'] + (['|'] + d))) == "---|" + d;
  }

  lemma {:induction false} ScanDashes(n: nat, paired: bool)
    ensures Scan(Dashes(n), false, paired) == seq(n, _ => "---") + [""]
  {
    hide Scan, Dashes;
    if n == 0 {
      NoDashes();
      ScanEmpty(paired);
    } else {
      DashesFront(n);
      ScanDashes(n - 1, paired);
      DashPiece(Dashes(n - 1), paired);
      assert ["---"] + seq(n - 1, _ => "---") == seq(n, _ => "---");
    }
  }

  lemma ScanPlain(c: char, t: string, first: string, rest: seq<string>, paired: bool)
    requires c != '|' && c != '\\' && Scan(t, false, paired) == [first] + rest
    ensures Scan([c] + t, false, paired) == [[c] + first] + rest
  {
    hide Scan, Glue;
    ScanStep(c, t, false, paired);
    GlueOne(c, first, rest);
  }

  lemma NoDashes()
    ensures Dashes(0) == ""
  {
  }

  /** The line of dashes has one cell for each column, as section 4.10 demands of the
      line under a header. */
  lemma DashesRead(n: nat, rd: Reader)
    ensures ReadRow("|" + Dashes(n), rd) == seq(n, _ => "---")
  {
    hide Scan, Dashes, ReadCell;
    ScanDashes(n, rd.paired);
    ScanBar(Dashes(n), rd.paired);
    ThreeDashes(rd);
    var cells := seq(n, _ => "---");
    assert ([""] + (cells + [""]))[1..n + 1] == cells;
  }

  lemma ThreeDashes(rd: Reader)
    ensures ReadCell("---", rd) == "---"
  {
    UnescapeShape("---");
  }
}
