/** The Markdown tables of httputil/negotiate.go. */
module Table {
  import opened Flatten
  import opened Order
  import opened Strings

  /** strings.ReplaceAll(s, "|", "\\|") */
  function EscapePipes(s: string): string {
    if s == "" then "" else (if s[0] == '|' then "\\|" else [s[0]]) + EscapePipes(s[1..])
  }

  /** strings.ReplaceAll(s, "\n", " ") */
  function Spaced(s: string): string {
    if s == "" then "" else [if s[0] == '\n' then ' ' else s[0]] + Spaced(s[1..])
  }

  function CellText(val: string): string { Spaced(EscapePipes(val)) }

  /** A row without its line end. */
  function Row(cells: seq<string>): string { "| " + Join(cells, " | ") + " |" }

  function Dashes(n: nat): string {
    if n == 0 then "" else Dashes(n - 1) + "---|"
  }

  function Cells(cols: seq<string>, flat: map<string, string>): seq<string> {
    seq(|cols|, i requires 0 <= i < |cols| => CellText(if cols[i] in flat then flat[cols[i]] else ""))
  }

  function TableLines(cols: seq<string>, flats: seq<map<string, string>>): seq<string> {
    [Row(cols), "|" + Dashes(|cols|)] + seq(|flats|, i requires 0 <= i < |flats| => Row(Cells(cols, flats[i])))
  }

  function PairRow(key: string, val: string): string { Row([key, CellText(val)]) }

  function PairRows(keys: seq<string>, flat: map<string, string>): seq<string>
    requires forall k | k in keys :: k in flat
  {
    seq(|keys|, i requires 0 <= i < |keys| => PairRow(keys[i], flat[keys[i]]))
  }

  function PairLines(keys: seq<string>, flat: map<string, string>): seq<string>
    requires forall k | k in keys :: k in flat
  {
    ["| field | value |", "|---|---|"] + PairRows(keys, flat)
  }

  /** Every line ends in a newline. */
  function Text(lines: seq<string>): string { Join(lines + [""], "\n") }

  function Flats(values: seq<Value>): seq<map<string, string>> {
    seq(|values|, i requires 0 <= i < |values| => Flat("", values[i]))
  }

  function Columns(flats: seq<map<string, string>>): set<string> {
    set flat, k | flat in flats && k in flat :: k
  }

  /** The columns are the keys that some value has. */
  ghost predicate Heads(cols: seq<string>, values: seq<Value>) {
    forall k :: k in cols <==> exists i :: 0 <= i < |values| && k in Flat("", values[i])
  }

  lemma ColumnsHead(cols: seq<string>, values: seq<Value>)
    requires Holds(cols, Columns(Flats(values)))
    ensures Heads(cols, values)
  {
    hide Flat;
    var flats := Flats(values);
    forall k
      ensures k in cols <==> exists i :: 0 <= i < |values| && k in Flat("", values[i])
    {
      if k in cols {
        var flat :| flat in flats && k in flat;
        var i :| 0 <= i < |flats| && flats[i] == flat;
        assert k in Flat("", values[i]);
      }
      if i :| 0 <= i < |values| && k in Flat("", values[i]) {
        assert flats[i] in flats;
      }
    }
  }

  lemma TextGrows(lines: seq<string>, line: string)
    ensures Text(lines + [line]) == Text(lines) + line + "\n"
  {
    JoinAppend(lines, "", "\n");
    JoinAppend(lines, line, "\n");
    JoinAppend(lines + [line], "", "\n");
    if lines != [] {
      JoinMore(Join(lines, "\n"), "\n", "", line);
    }
  }

  method WriteRow(buf: string, cells: seq<string>) returns (out: string)
    ensures out == buf + Row(cells) + "\n"
  {
    out := buf + "| ";
    for i := 0 to |cells|
      invariant out == buf + ("| " + Join(cells[..i], " | "))
    {
      assert cells[..i + 1] == cells[..i] + [cells[i]];
      JoinAppend(cells[..i], cells[i], " | ");
      if i > 0 {
        out := out + " | ";
      }
      out := out + cells[i];
    }
    assert cells[..|cells|] == cells;
    out := out + " |\n";
  }

  /** The table of a list: a header of the sorted columns, a line of dashes, and one row
      for each value. */
  method RenderListAsTable(values: seq<Value>) returns (out: string)
    ensures values == [] ==> out == "(empty)\n"
    ensures values != [] ==> exists cols :: Sorted(cols) && Heads(cols, values) &&
                                            out == Text(TableLines(cols, Flats(values)))
  {
    hide Row, Text, Flat, CellText, Sorted, Dashes, Join, Heads;
    if |values| == 0 {
      return "(empty)\n";
    }
    var flats: seq<map<string, string>> := [];
    for i := 0 to |values|
      invariant flats == Flats(values)[..i]
    {
      var flat := FlattenValue("", values[i]);
      flats := flats + [flat];
    }
    var cols := SortedKeys(Columns(flats));
    assert flats == Flats(values);
    ColumnsHead(cols, values);
    out := WriteRow("", cols);
    ghost var header := out;
    out := out + "|";
    DashesStart(header);
    for i := 0 to |cols|
      invariant out == header + ("|" + Dashes(i))
    {
      DashesGrow(header, i);
      out := out + "---|";
    }
    ghost var dashes := "|" + Dashes(|cols|);
    out := out + "\n";
    HeaderText(Row(cols), dashes);
    ghost var lines := TableLines(cols, flats);
    assert lines[..2] == [Row(cols), dashes];
    for i := 0 to |flats|
      invariant out == Text(lines[..i + 2])
    {
      assert lines[..i + 3] == lines[..i + 2] + [lines[i + 2]];
      TextGrows(lines[..i + 2], lines[i + 2]);
      out := WriteRow(out, Cells(cols, flats[i]));
    }
    assert lines[..|flats| + 2] == lines;
  }

  lemma DashesStart(header: string)
    ensures header + ("|" + Dashes(0)) == header + "|"
  {
  }

  lemma DashesGrow(header: string, i: nat)
    ensures header + ("|" + Dashes(i + 1)) == header + ("|" + Dashes(i)) + "---|"
  {
  }

  lemma HeaderText(a: string, b: string)
    ensures Text([a, b]) == "" + a + "\n" + b + "\n"
  {
    TextGrows([], a);
    TextGrows([a], b);
    assert [] + [a] == [a] && [a] + [b] == [a, b];
    assert Text([]) == "" by { assert [] + [""] == [""]; }
  }

  /** The table of one value: a row of its key and its text for each leaf, by key. */
  method RenderObjectAsKV(data: Value) returns (out: string)
    ensures var flat := Flat("", data);
            if flat == map[] then out == "(empty)\n"
            else exists keys :: Sorted(keys) && Holds(keys, flat.Keys) && (forall k | k in keys :: k in flat) &&
                                out == Text(PairLines(keys, flat))
  {
    hide Row, Text, Flat, CellText, Sorted, Join;
    var flat := FlattenValue("", data);
    if |flat| == 0 {
      return "(empty)\n";
    }
    var keys := SortedKeys(flat.Keys);
    out := "| field | value |\n";
    out := out + "|---|---|\n";
    PairHeader();
    ghost var lines := PairLines(keys, flat);
    assert lines[..2] == ["| field | value |", "|---|---|"];
    for i := 0 to |keys|
      invariant out == Text(lines[..i + 2])
    {
      assert lines[..i + 3] == lines[..i + 2] + [lines[i + 2]];
      TextGrows(lines[..i + 2], lines[i + 2]);
      out := WriteRow(out, [keys[i], CellText(flat[keys[i]])]);
    }
    assert lines[..|keys| + 2] == lines;
  }

  lemma PairHeader()
    ensures Text(["| field | value |", "|---|---|"]) == "| field | value |\n" + "|---|---|\n"
  {
    hide Text;
    HeaderText("| field | value |", "|---|---|");
  }
}
