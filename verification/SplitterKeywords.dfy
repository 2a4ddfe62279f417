/** Where the splitter sees BEGIN and END, byte by byte. */
module SplitterKeywords {
  import opened Text
  import opened Splitter
  import opened Trimming

  /** The 63 bytes a keyword may not be followed by. */
  predicate WordByte(c: char) {
    || c in ['A', 'B', 'C', 'D', 'E', 'F', 'G', 'H', 'I', 'J', 'K', 'L', 'M']
    || c in ['N', 'O', 'P', 'Q', 'R', 'S', 'T', 'U', 'V', 'W', 'X', 'Y', 'Z']
    || c in ['a', 'b', 'c', 'd', 'e', 'f', 'g', 'h', 'i', 'j', 'k', 'l', 'm']
    || c in ['n', 'o', 'p', 'q', 'r', 's', 't', 'u', 'v', 'w', 'x', 'y', 'z']
    || c in ['0', '1', '2', '3', '4', '5', '6', '7', '8', '9', '_']
  }

  lemma WordBytes(c: char)
    ensures IsIdentChar(c) <==> WordByte(c)
  {
  }

  /** No letter outside A to Z and a to z counts as one of a keyword. */
  lemma UpperIs(c: char)
    ensures Upper(c) == 'B' <==> c in "Bb"
    ensures Upper(c) == 'E' <==> c in "Ee"
    ensures Upper(c) == 'G' <==> c in "Gg"
    ensures Upper(c) == 'I' <==> c in "Ii"
    ensures Upper(c) == 'N' <==> c in "Nn"
    ensures Upper(c) == 'D' <==> c in "Dd"
  {
  }

  predicate AtBegin(s: string) {
    |s| >= 5 && s[0] in "Bb" && s[1] in "Ee" && s[2] in "Gg" && s[3] in "Ii" && s[4] in "Nn"
    && (|s| == 5 || !WordByte(s[5]))
  }

  predicate AtEnd(s: string) {
    |s| >= 3 && s[0] in "Ee" && s[1] in "Nn" && s[2] in "Dd" && (|s| == 3 || !WordByte(s[3]))
  }

  lemma BeginIs(s: string)
    ensures AtWord(s, "BEGIN") <==> AtBegin(s)
  {
    hide WordByte, IsIdentChar, IdentRun, UpperAll, Upper, UpperHasPrefix, AtWord;
    KeywordTestFindsWords(s, "BEGIN");
    UpperPrefixBegin(s);
    if |s| >= 5 {
      UpperIs(s[0]);
      UpperIs(s[1]);
      UpperIs(s[2]);
      UpperIs(s[3]);
      UpperIs(s[4]);
    }
    if |s| >= 6 {
      WordBytes(s[5]);
      UpperN(s[5]);
    }
    assert "BEG"[0] == 'B' && "BEG"[1] == 'E' && "BEG"[2] == 'G';
  }

  lemma UpperN(c: char)
    ensures Upper(c) == 'N' ==> IsIdentChar(c)
  {
  }

  lemma EndIs(s: string)
    ensures AtWord(s, "END") <==> AtEnd(s)
  {
    hide WordByte, IsIdentChar, IdentRun, UpperAll, Upper, UpperHasPrefix, AtWord;
    KeywordTestFindsWords(s, "END");
    UpperPrefixEnd(s);
    if |s| >= 3 {
      UpperIs(s[0]);
      UpperIs(s[1]);
      UpperIs(s[2]);
    }
    if |s| >= 4 { WordBytes(s[3]); }
  }

  /** A byte opens or closes a block exactly when it starts BEGIN or END, in any case,
      and the word ends there or goes on with none of the 63 word bytes. */
  lemma KeywordsExactly(s: string)
    requires s != ""
    ensures Next(s).kind.Open? <==> AtBegin(s)
    ensures Next(s).kind.Close? <==> AtEnd(s)
  {
    hide AtWord, WordByte;
    BeginIs(s);
    EndIs(s);
  }

  // ----- Inputs -----

  /** Byte i of s is none of a string, a comment, a cut or a keyword. */
  predicate Dull(s: string, i: nat)
    requires i < |s|
  {
    s[i] != '\'' && s[i] != '"' && s[i] != '-' && s[i] != ';' && !AtBegin(s[i..]) && !AtEnd(s[i..])
  }

  lemma DullStep(s: string, d: nat, buf: string)
    requires s != "" && Dull(s, 0)
    ensures Tail(s, d, buf) == Tail(s[1..], d, buf + [s[0]])
  {
    hide Tail, AtWord, AtBegin, AtEnd;
    assert s[0..] == s;
    TailStep(s, d, buf);
    BeginIs(s);
    EndIs(s);
    assert s[..1] == [s[0]];
  }

  /** Bytes without meaning are copied. */
  lemma {:induction false} DullRun(s: string, n: nat, d: nat, buf: string)
    requires n <= |s| && forall i | 0 <= i < n :: Dull(s, i)
    ensures Tail(s, d, buf) == Tail(s[n..], d, buf + s[..n])
  {
    hide Tail, AtBegin, AtEnd;
    if n == 0 {
      assert s[0..] == s && buf + s[..0] == buf;
    } else {
      DullRun(s, n - 1, d, buf);
      var t := s[n - 1..];
      assert Dull(s, n - 1) && t[0..] == t;
      DullStep(t, d, buf + s[..n - 1]);
      assert t[1..] == s[n..] && buf + s[..n - 1] + [t[0]] == buf + s[..n];
    }
  }

  /** The other bytes that a statement's text can bring. */
  lemma MarkStep(s: string, d: nat, buf: string)
    requires s != ""
    ensures s[0] == ';' ==> Tail(s, d, buf) == if d == 0 then Emit(buf) + Tail(s[1..], 0, "")
                                               else Tail(s[1..], d, buf + ";")
    ensures AtBegin(s) ==> Tail(s, d, buf) == Tail(s[1..], d + 1, buf + [s[0]])
    ensures AtEnd(s) ==> Tail(s, d, buf) == Tail(s[1..], if d > 0 then d - 1 else 0, buf + [s[0]])
  {
    hide Tail, Emit, AtWord, WordByte;
    TailStep(s, d, buf);
    BeginIs(s);
    EndIs(s);
    assert s[..1] == [s[0]];
  }

  lemma TailEnd(d: nat, buf: string)
    ensures Tail("", d, buf) == Emit(buf)
  {
    hide Emit;
    assert buf + Render([]) == buf;
  }

  /** A statement between blanks. */
  lemma EmitIs(u: string, t: string)
    requires (u == "" || u == " ") && t != "" && !Neutral(t[0]) && !Neutral(t[|t| - 1])
    ensures Emit(u + t) == [t]
  {
    hide TrimSpace, White, Edged, Neutral;
    SolidFront(t);
    SolidBack(t);
    EdgedExactly(t);
    WhiteSpaces();
    assert White(u) && White("") && u + t == u + t + "";
    TrimExactly(u + t, t);
  }

  lemma WhiteSpaces()
    ensures White("") && White(" ")
  {
    assert " "[..1] == " " && " "[1..] == "";
  }

  lemma DullBehind(s: string, n: nat, i: nat)
    requires n + i < |s| && Dull(s, n + i)
    ensures Dull(s[n..], i)
  {
    hide AtBegin, AtEnd;
    assert s[n..][i..] == s[n + i..];
  }

  /** The last statement, behind a blank. */
  lemma LastStatement(t: string, x: string)
    requires t == " " + x && x != "" && !Neutral(x[0]) && !Neutral(x[|x| - 1])
    requires forall i | 0 <= i < |t| :: Dull(t, i)
    ensures Tail(t, 0, "") == [x]
  {
    hide Tail, Emit, Dull, Neutral;
    DullRun(t, |t|, 0, "");
    TailEnd(0, t);
    EmitIs(" ", x);
    assert t[|t|..] == "" && "" + t[..|t|] == t;
  }

  lemma FirstStatement(s: string, n: nat)
    requires 0 < n < |s| && s[n] == ';' && !Neutral(s[0]) && !Neutral(s[n - 1])
    requires forall i | 0 <= i < n :: Dull(s, i)
    ensures Statements(s) == [s[..n]] + Tail(s[n + 1..], 0, "")
  {
    hide Tail, Emit, Statements, Dull, Neutral;
    TailStart(s);
    DullRun(s, n, 0, "");
    var t := s[n..];
    MarkStep(t, 0, s[..n]);
    EmitIs("", s[..n]);
    assert "" + s[..n] == s[..n] && t[1..] == s[n + 1..];
  }

  /** Two statements in which only the semicolon between them has a meaning. */
  lemma TwoStatements(s: string, n: nat)
    requires 0 < n && n + 2 < |s| && s[n] == ';' && s[n + 1] == ' '
    requires forall i | 0 <= i < |s| && i != n :: Dull(s, i)
    requires !Neutral(s[0]) && !Neutral(s[n - 1]) && !Neutral(s[n + 2]) && !Neutral(s[|s| - 1])
    ensures Statements(s) == [s[..n], s[n + 2..]]
  {
    hide Tail, Statements, Dull, Neutral;
    var t := s[n + 1..];
    forall i | 0 <= i < |t|
      ensures Dull(t, i)
    {
      DullBehind(s, n + 1, i);
    }
    FirstStatement(s, n);
    LastStatement(t, s[n + 2..]);
  }

  lemma DullIf(s: string, i: nat)
    requires i < |s| && s[i] != '\'' && s[i] != '"' && s[i] != '-' && s[i] != ';'
    requires s[i] in "Bb" ==> i + 5 < |s| && WordByte(s[i + 5])
    requires s[i] in "Ee" ==> i + 1 < |s| && s[i + 1] !in "Nn"
    ensures Dull(s, i)
  {
    hide WordByte;
  }

  /** An underscore behind BEGIN makes it another word. */
  lemma UnderscoreBehind()
    ensures Statements("begin_at; a") == ["begin_at", "a"]
  {
    hide Statements, Dull, Neutral;
    var s := "begin_at; a";
    forall i | 0 <= i < |s| && i != 8
      ensures Dull(s, i)
    {
      DullIf(s, i);
    }
    NoSpaces();
    TwoStatements(s, 8);
    assert s[..8] == "begin_at" && s[10..] == "a";
  }

  lemma NoSpaces()
    ensures !Neutral('a') && !Neutral('b') && !Neutral('B') && !Neutral('t') && !Neutral('2') && !Neutral('d')
  {
  }

  /** So does a digit. */
  lemma DigitBehind()
    ensures Statements("Begin2; a") == ["Begin2", "a"]
  {
    hide Statements, Dull, Neutral;
    var s := "Begin2; a";
    forall i | 0 <= i < |s| && i != 6
      ensures Dull(s, i)
    {
      DullIf(s, i);
    }
    NoSpaces();
    TwoStatements(s, 6);
    assert s[..6] == "Begin2" && s[8..] == "a";
  }

  /** Lower-case keywords keep a block together. */
  lemma LowerCaseBlock()
    ensures Statements("begin;end; a") == ["begin;end", "a"]
  {
    hide Statements, Tail, Emit, Neutral, Dull, AtBegin, AtEnd;
    var s := "begin;end; a";
    TailStart(s);
    BlockMarks();
    BlockTexts();
    BlockBuffers();
    MarkStep(s, 0, "");
    DullRun("egin;end; a", 4, 1, "b");
    MarkStep(";end; a", 1, "begin");
    MarkStep("end; a", 1, "begin;");
    DullRun("nd; a", 2, 0, "begin;e");
    MarkStep("; a", 0, "begin;end");
    NoSpaces();
    EmitIs("", "begin;end");
    LastStatement(" a", "a");
  }

  lemma BlockMarks()
    ensures AtBegin("begin;end; a") && AtEnd("end; a")
    ensures forall i | 0 <= i < 4 :: Dull("egin;end; a", i)
    ensures forall i | 0 <= i < 2 :: Dull("nd; a", i) && Dull(" a", i)
  {
    hide Dull, WordByte;
    assert !WordByte(';') by { WordBytes(';'); }
    forall i | 0 <= i < 4 ensures Dull("egin;end; a", i) { DullIf("egin;end; a", i); }
    forall i | 0 <= i < 2
      ensures Dull("nd; a", i) && Dull(" a", i)
    {
      DullIf("nd; a", i);
      DullIf(" a", i);
    }
  }

  lemma BlockTexts()
    ensures "begin;end; a"[1..] == "egin;end; a" && "egin;end; a"[4..] == ";end; a" && ";end; a"[1..] == "end; a"
    ensures "end; a"[1..] == "nd; a" && "nd; a"[2..] == "; a" && "; a"[1..] == " a"
  {
  }

  lemma BlockBuffers()
    ensures "" + ['b'] == "b" && "b" + "egin;end; a"[..4] == "begin" && "begin" + ";" == "begin;"
    ensures "begin;" + ['e'] == "begin;e" && "begin;e" + "nd; a"[..2] == "begin;end"
    ensures "" + "begin;end" == "begin;end" && " " + "a" == " a"
  {
  }
}
