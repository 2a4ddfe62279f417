/** Whole tables of httputil/negotiate.go, rendered and read back. */
module TableRoundTrip {
  import opened Flatten
  import opened Strings
  import opened Table
  import opened TableReader

  // ----- Lines -----

  lemma {:induction false} SplitAround(a: string, sep: char, b: string)
    ensures SplitOn(a + [sep] + b, sep) == SplitOn(a, sep) + SplitOn(b, sep)
  {
    var s := a + [sep] + b;
    if a == "" {
      assert s[1..] == b;
    } else {
      assert s[1..] == a[1..] + [sep] + b;
      SplitAround(a[1..], sep, b);
    }
  }

  lemma {:induction false} OnePiece(a: string, sep: char)
    ensures |SplitOn(a, sep)| == 1 <==> sep !in a
  {
    if a != "" { OnePiece(a[1..], sep); }
  }

  /** Joined parts fall apart into as many pieces exactly when none holds the separator. */
  lemma {:induction false} JoinCount(parts: seq<string>, sep: char)
    requires parts != []
    ensures |SplitOn(Join(parts, [sep]), sep)| >= |parts|
    ensures |SplitOn(Join(parts, [sep]), sep)| == |parts| <==> forall p | p in parts :: sep !in p
  {
    hide SplitOn;
    OnePiece(parts[0], sep);
    if |parts| == 1 {
      assert parts == [parts[0]];
    } else {
      var rest := parts[1..];
      assert parts == [parts[0]] + rest;
      SplitAround(parts[0], sep, Join(rest, [sep]));
      JoinCount(rest, sep);
    }
  }

  /** The lines of a text are the lines written exactly when none holds a newline. */
  lemma TextLinesExactly(lines: seq<string>)
    ensures |SplitOn(Text(lines), '\n')| == |lines| + 1 <==> forall l | l in lines :: '\n' !in l
    ensures (forall l | l in lines :: '\n' !in l) ==> SplitOn(Text(lines), '\n') == lines + [""]
  {
    hide SplitOn, Join;
    JoinCount(lines + [""], '\n');
    assert "" in lines + [""];
    assert forall l | l in lines :: l in lines + [""];
    if forall l | l in lines :: '\n' !in l {
      SplitJoin(lines + [""], '\n');
    }
  }

  lemma {:induction false} JoinHolds(parts: seq<string>)
    ensures '\n' in Join(parts, " | ") <==> exists p :: p in parts && '\n' in p
  {
    if parts != [] {
      JoinHolds(parts[1..]);
      assert parts == [parts[0]] + parts[1..];
    }
  }

  lemma RowHolds(cells: seq<string>)
    ensures '\n' in Row(cells) <==> exists p :: p in cells && '\n' in p
  {
    hide Join;
    JoinHolds(cells);
  }

  lemma {:induction false} SpacedStaysOnLine(s: string)
    ensures '\n' !in Spaced(s)
  {
    if s != "" { SpacedStaysOnLine(s[1..]); }
  }

  lemma {:induction false} DashesStayOnLine(n: nat)
    ensures '\n' !in Dashes(n)
  {
    if n > 0 { DashesStayOnLine(n - 1); }
  }

  lemma CellsStayOnLine(cols: seq<string>, flat: map<string, string>)
    ensures '\n' !in Row(Cells(cols, flat))
  {
    hide Spaced, EscapePipes, Row;
    forall i | 0 <= i < |cols|
      ensures '\n' !in Cells(cols, flat)[i]
    {
      SpacedStaysOnLine(EscapePipes(if cols[i] in flat then flat[cols[i]] else ""));
    }
    RowHolds(Cells(cols, flat));
  }

  lemma LinesBehind(head: string, rest: seq<string>)
    requires forall l | l in rest :: '\n' !in l
    ensures SplitOn(Text([head] + rest), '\n') == SplitOn(head, '\n') + (rest + [""])
  {
    hide SplitOn;
    assert ([head] + rest + [""])[1..] == rest + [""];
    SplitAround(head, '\n', Join(rest + [""], "\n"));
    SplitJoin(rest + [""], '\n');
  }

  function BodyLines(cols: seq<string>, flats: seq<map<string, string>>): seq<string> {
    TableLines(cols, flats)[1..]
  }

  lemma BodyStaysOnLine(cols: seq<string>, flats: seq<map<string, string>>, i: nat)
    requires i <= |flats|
    ensures '\n' !in BodyLines(cols, flats)[i]
  {
    hide Row, Cells, Dashes;
    if i == 0 {
      DashesStayOnLine(|cols|);
    } else {
      CellsStayOnLine(cols, flats[i - 1]);
    }
  }

  /** Whatever the keys are, a table's lines end in the line of dashes, a line for each
      value, and an empty one; before them stands one line exactly when no key holds a
      newline. */
  lemma TableLinesExactly(cols: seq<string>, flats: seq<map<string, string>>)
    ensures var header := SplitOn(Row(cols), '\n');
            && SplitOn(Text(TableLines(cols, flats)), '\n') == header + (BodyLines(cols, flats) + [""])
            && |BodyLines(cols, flats)| == |flats| + 1
            && (|header| == 1 <==> forall c | c in cols :: '\n' !in c)
            && (|header| == 1 ==> header == [Row(cols)])
  {
    hide SplitOn, Text, Row, Cells, Dashes;
    var body := BodyLines(cols, flats);
    assert TableLines(cols, flats) == [Row(cols)] + body;
    forall l | l in body
      ensures '\n' !in l
    {
      var i :| 0 <= i < |body| && body[i] == l;
      BodyStaysOnLine(cols, flats, i);
    }
    LinesBehind(Row(cols), body);
    RowHolds(cols);
    OnePiece(Row(cols), '\n');
    if '\n' !in Row(cols) { SplitNowhere(Row(cols), '\n'); }
  }

  // ----- A list's table -----

  function ValueAt(col: string, flat: map<string, string>): string {
    if col in flat then flat[col] else ""
  }

  /** The texts a row ought to show. */
  function Wanted(cols: seq<string>, flat: map<string, string>): seq<string> {
    seq(|cols|, i requires 0 <= i < |cols| => Spaced(ValueAt(cols[i], flat)))
  }

  lemma NoColumns(rd: Reader)
    ensures ReadRow(Row([]), rd) != []
  {
    hide SplitRow, Pieces;
    RowPieces([""], rd.paired);
    AtLeast([""], rd.paired);
    assert Row([]) == Row([""]);
    SplitCount(Row([]), rd);
  }

  /** A header is read as the keys exactly when there are any and each is read back. */
  lemma HeaderReadsExactly(cols: seq<string>, rd: Reader)
    ensures ReadRow(Row(cols), rd) == cols <==> cols != [] && forall c | c in cols :: KeyOk(c, rd)
  {
    hide Row, ReadRow, Shows, KeyOk;
    if cols == [] {
      NoColumns(rd);
    } else {
      RowReadsExactly(cols, cols, rd);
      forall i | 0 <= i < |cols|
        ensures Shows(cols[i], cols[i], rd) <==> KeyOk(cols[i], rd)
      {
        KeyReadsExactly(cols[i], rd);
      }
    }
  }

  predicate ValuesOk(cols: seq<string>, flat: map<string, string>, rd: Reader) {
    forall c | c in cols :: ValueOk(ValueAt(c, flat), rd)
  }

  /** A value's row is read as its texts exactly when each of them is read back. */
  lemma CellsReadExactly(cols: seq<string>, flat: map<string, string>, rd: Reader)
    requires cols != []
    ensures ReadRow(Row(Cells(cols, flat)), rd) == Wanted(cols, flat) <==> ValuesOk(cols, flat, rd)
  {
    hide Row, ReadRow, Shows, ValueOk, CellText, Spaced;
    var cells := Cells(cols, flat);
    RowReadsExactly(cells, Wanted(cols, flat), rd);
    forall i | 0 <= i < |cols|
      ensures Shows(cells[i], Wanted(cols, flat)[i], rd) <==> ValueOk(ValueAt(cols[i], flat), rd)
    {
      ValueReadsExactly(ValueAt(cols[i], flat), rd);
    }
  }

  /** The text is read as a table of these columns and rows: a header, a line of dashes
      with a cell for each column, and the rows. */
  predicate TableReads(text: string, cols: seq<string>, flats: seq<map<string, string>>, rd: Reader) {
    var lines := SplitOn(text, '\n');
    && |lines| == |flats| + 3 && lines[|flats| + 2] == ""
    && ReadRow(lines[0], rd) == cols && |ReadRow(lines[1], rd)| == |cols|
    && forall i | 0 <= i < |flats| :: ReadRow(lines[i + 2], rd) == Wanted(cols, flats[i])
  }

  /** A list's table reads back, newlines in values as spaces, exactly when it has a
      column, no key holds a pipe or a newline, every value is safe for the reader, and
      none has blanks at edges that the reader trims. */
  lemma TableReadsBackExactly(cols: seq<string>, flats: seq<map<string, string>>, rd: Reader)
    ensures TableReads(Text(TableLines(cols, flats)), cols, flats, rd) <==>
            && cols != []
            && (forall c | c in cols :: '\n' !in c && KeyOk(c, rd))
            && (forall flat | flat in flats :: ValuesOk(cols, flat, rd))
  {
    hide SplitOn, Text, ReadRow, Row, Cells, Wanted, KeyOk, ValuesOk, Dashes;
    TableLinesExactly(cols, flats);
    if forall c | c in cols :: '\n' !in c {
      var lines := SplitOn(Text(TableLines(cols, flats)), '\n');
      assert lines == TableLines(cols, flats) + [""];
      HeaderReadsExactly(cols, rd);
      if cols != [] {
        DashesRead(|cols|, rd);
        forall i | 0 <= i < |flats|
          ensures ReadRow(lines[i + 2], rd) == Wanted(cols, flats[i]) <==> ValuesOk(cols, flats[i], rd)
        {
          CellsReadExactly(cols, flats[i], rd);
        }
      }
    }
  }

  // ----- One value's table -----

  predicate PairsRead(text: string, keys: seq<string>, flat: map<string, string>, rd: Reader)
    requires forall k | k in keys :: k in flat
  {
    var lines := SplitOn(text, '\n');
    && |lines| == |keys| + 3
    && forall i | 0 <= i < |keys| :: ReadRow(lines[i + 2], rd) == [keys[i], Spaced(flat[keys[i]])]
  }

  /** A key's row is read as the key and its text exactly when both are read back. */
  lemma PairReadsExactly(key: string, val: string, rd: Reader)
    ensures ReadRow(PairRow(key, val), rd) == [key, Spaced(val)] <==> KeyOk(key, rd) && ValueOk(val, rd)
    ensures '\n' in PairRow(key, val) <==> '\n' in key
  {
    hide ReadRow, Row, Shows, KeyOk, ValueOk, Spaced, EscapePipes;
    var cells, wants := [key, CellText(val)], [key, Spaced(val)];
    RowReadsExactly(cells, wants, rd);
    KeyReadsExactly(key, rd);
    ValueReadsExactly(val, rd);
    assert cells[0] == key && cells[1] == CellText(val) && wants[0] == key && wants[1] == Spaced(val);
    SpacedStaysOnLine(EscapePipes(val));
    RowHolds(cells);
  }

  lemma PairHeaderStays()
    ensures '\n' !in "| field | value |" && '\n' !in "|---|---|"
  {
  }

  lemma LinesAfter(a: string, b: string, rows: seq<string>)
    requires '\n' !in a && '\n' !in b
    ensures |SplitOn(Text([a, b] + rows), '\n')| == |rows| + 3 <==> forall r | r in rows :: '\n' !in r
    ensures (forall r | r in rows :: '\n' !in r) ==> SplitOn(Text([a, b] + rows), '\n') == [a, b] + rows + [""]
  {
    hide SplitOn, Text;
    TextLinesExactly([a, b] + rows);
    assert forall r | r in rows :: r in [a, b] + rows;
  }

  /** One value's table reads back, each leaf's line as its key and its text, exactly
      when every key and every text does and no key holds a newline. */
  lemma PairsReadBackExactly(keys: seq<string>, flat: map<string, string>, rd: Reader)
    requires forall k | k in keys :: k in flat
    ensures PairsRead(Text(PairLines(keys, flat)), keys, flat, rd) <==>
            forall k | k in keys :: '\n' !in k && KeyOk(k, rd) && ValueOk(flat[k], rd)
  {
    hide SplitOn, Text, ReadRow, PairRow, KeyOk, ValueOk, Spaced;
    var rows := PairRows(keys, flat);
    PairHeaderStays();
    LinesAfter("| field | value |", "|---|---|", rows);
    forall i | 0 <= i < |keys|
      ensures '\n' in rows[i] <==> '\n' in keys[i]
      ensures ReadRow(rows[i], rd) == [keys[i], Spaced(flat[keys[i]])]
              <==> KeyOk(keys[i], rd) && ValueOk(flat[keys[i]], rd)
    {
      assert keys[i] in keys;
      PairReadsExactly(keys[i], flat[keys[i]], rd);
    }
    if forall k | k in keys :: '\n' !in k {
      var lines := SplitOn(Text(PairLines(keys, flat)), '\n');
      forall i | 0 <= i < |keys|
        ensures lines[i + 2] == rows[i]
      {
      }
    }
  }

  // ----- From values to tables and back -----

  /** In the table of a list, a leaf's text stands in its value's line, counted from the
      end, in the column of its dotted path, when the line's texts are read back and no
      two leaves of the value with different texts share a path. */
  lemma LeafReadsBack(values: seq<Value>, cols: seq<string>, i: nat, path: seq<string>, text: string, rd: Reader)
    returns (j: nat)
    requires Heads(cols, values)
    requires i < |values| && Proper(values[i]) && LeafAt(values[i], path, text)
    requires forall p, q, s, t | LeafAt(values[i], p, s) && LeafAt(values[i], q, t) && Dotted(p) == Dotted(q) :: s == t
    requires ValuesOk(cols, Flat("", values[i]), rd)
    ensures j < |cols| && cols[j] == Dotted(path)
    ensures var lines := SplitOn(Text(TableLines(cols, Flats(values))), '\n');
            && |lines| >= |values| + 3
            && var cells := ReadRow(lines[|lines| - 1 - |values| + i], rd);
            |cells| == |cols| && cells[j] == Spaced(text)
  {
    hide Flat, Proper, LeafAt, Dotted, Row, ReadRow, Cells, SplitOn, Text, ValuesOk, Spaced;
    LeavesShownExactly(values[i]);
    var flats := Flats(values);
    var key := Dotted(path);
    assert key in Flat("", values[i]) && key in cols;
    j :| 0 <= j < |cols| && cols[j] == key;
    TableLinesExactly(cols, flats);
    CellsReadExactly(cols, flats[i], rd);
    assert BodyLines(cols, flats)[i + 1] == Row(Cells(cols, flats[i]));
  }

  // ----- Keys that break a table -----

  /** The key "a\|b" is one cell for a reader that looks one byte back, but is read
      without its backslash. */
  lemma EscapedKeyChanges(trims: bool)
    ensures ReadRow(Row(["a\\|b"]), Reader(false, trims)) == ["a|b"]
  {
    hide ReadRow, Row, ReadCell, Padded, Unescape;
    var key, rd := "a\\|b", Reader(false, trims);
    assert forall i | 0 <= i < |key| && key[i] == '|' :: i == 2 && Run(key, 2) == 1 + Run(key, 1);
    CellIsRead(key, rd);
    KeyUnescaped();
    RowReadsExactly([key], ["a|b"], rd);
  }

  lemma KeyUnescaped()
    ensures Unescape("a\\|b") == "a|b"
  {
    var key := "a\\|b";
    assert key[1..] == "\\|b" && "\\|b"[2..] == "b" && "b"[1..] == "";
    assert Unescape("b") == "b" && Unescape("\\|b") == "|" + "b";
  }

  /** A table with the one key "a\nb" and one value has a line too many. */
  lemma NewlineKeySplits(val: string, rd: Reader)
    ensures var cols, flats := ["a\nb"], [map["a\nb" := val]];
            |SplitOn(Text(TableLines(cols, flats)), '\n')| != |flats| + 3 &&
            !TableReads(Text(TableLines(cols, flats)), cols, flats, rd)
  {
    hide TableReads, SplitOn, Text, TableLines, KeyOk, ValuesOk;
    var cols, flats := ["a\nb"], [map["a\nb" := val]];
    assert cols[0][1] == '\n' && cols[0] in cols;
    TableLinesExactly(cols, flats);
    TableReadsBackExactly(cols, flats, rd);
  }
}
