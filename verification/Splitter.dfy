/** The SQL statement splitter (migrator.go and its copy in cmd/localitas/main.go):
    a declarative tokeniser and segmentation, and the byte loop proved against them. */
module Splitter {
  import opened Text

  // ----- Tokens -----

  datatype Kind =
    | Plain        // one byte with no meaning of its own
    | Open         // the first byte of a word BEGIN
    | Close        // the first byte of a word END
    | Semi         // a semicolon outside strings and comments
    | Literal      // a quoted string with its closing quote
    | OpenLiteral  // a quoted string that the input leaves open
    | Comment      // a -- comment with its newline
    | OpenComment  // a -- comment that the input leaves open

  /** src is the token's own bytes in the input. */
  datatype Token = Token(kind: Kind, src: string) {
    /** What the splitter copies: a comment becomes one newline. */
    function Out(): string {
      if kind.Comment? || kind.OpenComment? then "\n" else src
    }
  }

  predicate IsQuote(c: char) { c == '\'' || c == '"' }

  predicate IsIdentChar(c: char) {
    'A' <= c <= 'Z' || 'a' <= c <= 'z' || '0' <= c <= '9' || c == '_'
  }

  function Upper(c: char): char {
    if 'a' <= c <= 'z' then (c as int - 32) as char else c
  }

  /** Number of identifier bytes at the front of s. */
  function IdentRun(s: string): (n: nat)
    ensures n <= |s|
  {
    if s == "" || !IsIdentChar(s[0]) then 0 else 1 + IdentRun(s[1..])
  }

  function UpperAll(s: string): (r: string)
    ensures |r| == |s|
    ensures forall i | 0 <= i < |s| :: r[i] == Upper(s[i])
  {
    seq(|s|, i requires 0 <= i < |s| => Upper(s[i]))
  }

  /** The identifier at the front of s is the keyword w, in any case. */
  predicate AtWord(s: string, w: string) {
    UpperAll(s[..IdentRun(s)]) == w
  }

  /** s follows an opening quote q: the bytes up to and with its closing quote.
      A doubled quote stands for one quote and closes nothing. */
  function LiteralLen(s: string, q: char): (n: nat)
    ensures n <= |s|
  {
    if s == "" then 0
    else if s[0] != q then 1 + LiteralLen(s[1..], q)
    else if |s| >= 2 && s[1] == q then 2 + LiteralLen(s[2..], q)
    else 1
  }

  predicate LiteralCloses(s: string, q: char) {
    if s == "" then false
    else if s[0] != q then LiteralCloses(s[1..], q)
    else if |s| >= 2 && s[1] == q then LiteralCloses(s[2..], q)
    else true
  }

  /** The bytes up to and with the first newline, or all of s. */
  function LineLen(s: string): (n: nat)
    ensures n <= |s|
    ensures s != "" ==> n > 0
  {
    if s == "" then 0 else if s[0] == '\n' then 1 else 1 + LineLen(s[1..])
  }

  predicate AtComment(s: string) { |s| >= 2 && s[0] == '-' && s[1] == '-' }

  /** The first token of s. */
  function Next(s: string): (t: Token)
    requires s != ""
    ensures t.src <= s && t.src != ""
  {
    var c := s[0];
    if IsQuote(c) then
      Token(if LiteralCloses(s[1..], c) then Literal else OpenLiteral, s[..1 + LiteralLen(s[1..], c)])
    else if AtComment(s) then
      var n := LineLen(s);
      Token(if s[n - 1] == '\n' then Comment else OpenComment, s[..n])
    else if c == ';' then Token(Semi, s[..1])
    else if AtWord(s, "BEGIN") then Token(Open, s[..1])
    else if AtWord(s, "END") then Token(Close, s[..1])
    else Token(Plain, s[..1])
  }

  function Lex(s: string): seq<Token> {
    if s == "" then [] else [Next(s)] + Lex(s[|Next(s).src|..])
  }

  function Source(ts: seq<Token>): string {
    if ts == [] then "" else ts[0].src + Source(ts[1..])
  }

  function Render(ts: seq<Token>): string {
    if ts == [] then "" else ts[0].Out() + Render(ts[1..])
  }

  // ----- Nesting and segments -----

  /** The BEGIN/END count after one more token; END at depth 0 is ignored. */
  function Nest(d: nat, k: Kind): nat {
    match k
    case Open => d + 1
    case Close => if d > 0 then d - 1 else 0
    case _ => d
  }

  function Depth(d: nat, ts: seq<Token>): nat
    decreases ts
  {
    if ts == [] then d else Depth(Nest(d, ts[0].kind), ts[1..])
  }

  /** Token k ends a statement: a semicolon where the count is zero. */
  predicate IsCut(d: nat, ts: seq<Token>, k: nat)
    requires k < |ts|
  {
    ts[k].kind.Semi? && Depth(d, ts[..k]) == 0
  }

  predicate NoCut(d: nat, ts: seq<Token>)
    decreases ts
  {
    ts == [] || (!(ts[0].kind.Semi? && d == 0) && NoCut(Nest(d, ts[0].kind), ts[1..]))
  }

  /** The tokens between cuts; the last segment is what no semicolon ended. */
  function Segments(d: nat, ts: seq<Token>): (segs: seq<seq<Token>>)
    ensures segs != []
    decreases ts
  {
    if ts == [] then [[]]
    else if ts[0].kind.Semi? && d == 0 then [[]] + Segments(0, ts[1..])
    else
      var r := Segments(Nest(d, ts[0].kind), ts[1..]);
      [[ts[0]] + r[0]] + r[1..]
  }

  // ----- Statements -----

  function Emit(text: string): seq<string> {
    if TrimSpace(text) == "" then [] else [TrimSpace(text)]
  }

  function Finish(segs: seq<seq<Token>>): seq<string> {
    if segs == [] then [] else Emit(Render(segs[0])) + Finish(segs[1..])
  }

  /** What splitting raw means: the non-blank segments, comments replaced, trimmed. */
  function Statements(raw: string): seq<string> {
    Finish(Segments(0, Lex(raw)))
  }

  // ----- The loop -----

  /** What is still to be produced with text already in the buffer. */
  function Tail(rest: string, d: nat, buf: string): seq<string> {
    var segs := Segments(d, Lex(rest));
    Emit(buf + Render(segs[0])) + Finish(segs[1..])
  }

  lemma TailStep(s: string, d: nat, buf: string)
    requires s != ""
    ensures var t := Next(s);
            Tail(s, d, buf) ==
            if t.kind.Semi? && d == 0 then Emit(buf) + Tail(s[1..], 0, "")
            else Tail(s[|t.src|..], Nest(d, t.kind), buf + t.Out())
  {
    hide TrimSpace, Next;
    var t := Next(s);
    var rest := Lex(s[|t.src|..]);
    assert Lex(s)[0] == t && Lex(s)[1..] == rest;
    if t.kind.Semi? && d == 0 {
      assert |t.src| == 1 by { SemiIsOneByte(s); }
      assert buf + Render([]) == buf;
      var segs := Segments(0, rest);
      assert Segments(d, Lex(s))[1..] == segs;
      assert "" + Render(segs[0]) == Render(segs[0]);
    } else {
      var r := Segments(Nest(d, t.kind), rest);
      var seg := [t] + r[0];
      assert seg[1..] == r[0];
      Assoc(buf, t.Out(), Render(r[0]));
      assert Segments(d, Lex(s))[1..] == r[1..];
    }
  }

  lemma TailStart(raw: string)
    ensures Tail(raw, 0, "") == Statements(raw)
  {
    hide TrimSpace;
    var segs := Segments(0, Lex(raw));
    assert "" + Render(segs[0]) == Render(segs[0]);
  }

  lemma SemiIsOneByte(s: string)
    requires s != "" && Next(s).kind.Semi?
    ensures Next(s).src == s[..1]
  {
  }

  /** strings.ToUpper(s) starts with w. Two letters outside ASCII have an ASCII
      upper case: U+0131 (I) and U+017F (S). */
  predicate UpperHasPrefix(s: string, w: string) {
    w == "" || (s != "" && (
      || (Upper(s[0]) == w[0] && UpperHasPrefix(s[1..], w[1..]))
      || (|s| >= 2 && s[..2] == "\U{C4}\U{B1}" && w[0] == 'I' && UpperHasPrefix(s[2..], w[1..]))
      || (|s| >= 2 && s[..2] == "\U{C5}\U{BF}" && w[0] == 'S' && UpperHasPrefix(s[2..], w[1..]))))
  }

  /** The scanner's keyword test: a prefix of the upper-cased rest, and then no
      identifier byte at the offset where the keyword ends in ASCII. */
  predicate KeywordTest(s: string, w: string) {
    UpperHasPrefix(s, w) && (|s| <= |w| || !IsIdentChar(s[|w|]))
  }

  lemma IdentRunIs(s: string, n: nat)
    requires n <= |s|
    requires forall i | 0 <= i < n :: IsIdentChar(s[i])
    requires n == |s| || !IsIdentChar(s[n])
    ensures IdentRun(s) == n
  {
    if n > 0 {
      IdentRunIs(s[1..], n - 1);
    }
  }

  lemma IdentRunShape(s: string)
    ensures forall i | 0 <= i < IdentRun(s) :: IsIdentChar(s[i])
    ensures IdentRun(s) == |s| || !IsIdentChar(s[IdentRun(s)])
  {
    if s != "" && IsIdentChar(s[0]) {
      IdentRunShape(s[1..]);
      assert forall i | 1 <= i < |s| :: s[i] == s[1..][i - 1];
    }
  }

  /** An upper-casing prefix test without the two foreign letters. */
  predicate AsciiPrefix(s: string, w: string) {
    |w| <= |s| && forall i | 0 <= i < |w| :: Upper(s[i]) == w[i]
  }

  lemma UpperPrefixEnd(s: string)
    ensures UpperHasPrefix(s, "END") <==> AsciiPrefix(s, "END")
  {
    assert "END"[1..] == "ND" && "ND"[1..] == "D" && "D"[1..] == "";
    if UpperHasPrefix(s, "END") {
      assert UpperHasPrefix(s[1..], "ND");
      assert UpperHasPrefix(s[1..][1..], "D");
    }
    if AsciiPrefix(s, "END") {
      assert s[2..] == s[1..][1..];
      assert UpperHasPrefix(s[3..], "");
      assert s[3..] == s[2..][1..];
      assert UpperHasPrefix(s[2..], "D");
      assert UpperHasPrefix(s[1..], "ND");
    }
  }

  lemma UpperPrefixIn(s: string)
    ensures UpperHasPrefix(s, "IN") <==>
            AsciiPrefix(s, "IN") || (|s| >= 3 && s[..2] == "\U{C4}\U{B1}" && Upper(s[2]) == 'N')
  {
    assert "IN"[1..] == "N" && "N"[1..] == "";
    assert forall r: string :: UpperHasPrefix(r, "N") <==> r != "" && Upper(r[0]) == 'N';
  }

  lemma UpperPrefixGin(s: string)
    ensures UpperHasPrefix(s, "GIN") <==> s != "" && Upper(s[0]) == 'G' && UpperHasPrefix(s[1..], "IN")
  {
    assert "GIN"[1..] == "IN";
  }

  lemma UpperPrefixEgin(s: string)
    ensures UpperHasPrefix(s, "EGIN") <==> s != "" && Upper(s[0]) == 'E' && UpperHasPrefix(s[1..], "GIN")
  {
    assert "EGIN"[1..] == "GIN";
  }

  lemma UpperPrefixB(s: string)
    ensures UpperHasPrefix(s, "BEGIN") <==> s != "" && Upper(s[0]) == 'B' && UpperHasPrefix(s[1..], "EGIN")
  {
    assert "BEGIN"[1..] == "EGIN";
  }

  lemma UpperPrefixBegin(s: string)
    ensures UpperHasPrefix(s, "BEGIN") <==>
            AsciiPrefix(s, "BEGIN")
            || (AsciiPrefix(s, "BEG") && |s| >= 6 && s[3..5] == "\U{C4}\U{B1}" && Upper(s[5]) == 'N')
  {
    hide UpperHasPrefix, Upper;
    UpperPrefixB(s);
    if |s| >= 1 {
      UpperPrefixEgin(s[1..]);
      if |s| >= 2 {
        assert s[1..][1..] == s[2..];
        UpperPrefixGin(s[2..]);
        if |s| >= 3 {
          assert s[2..][1..] == s[3..];
          UpperPrefixIn(s[3..]);
        }
      }
    }
  }

  /** The scanner recognises exactly the whole words BEGIN and END: a dotless i
      takes two bytes, so its spelling fails the byte test behind the keyword. */
  lemma KeywordTestFindsWords(s: string, w: string)
    requires w == "BEGIN" || w == "END"
    ensures KeywordTest(s, w) <==> AtWord(s, w)
  {
    if w == "BEGIN" { UpperPrefixBegin(s); } else { UpperPrefixEnd(s); }
    IdentRunShape(s);
    if AsciiPrefix(s, w) {
      assert forall i | 0 <= i < |w| :: IsIdentChar(s[i]) by {
        assert forall c: char | 'A' <= Upper(c) <= 'Z' :: IsIdentChar(c);
      }
      if |s| == |w| || !IsIdentChar(s[|w|]) {
        IdentRunIs(s, |w|);
        assert UpperAll(s[..|w|]) == w;
      }
    }
    if AtWord(s, w) {
      var u := UpperAll(s[..IdentRun(s)]);
      assert |u| == |w|;
      assert forall i | 0 <= i < |w| :: Upper(s[i]) == u[i];
      assert AsciiPrefix(s, w);
    }
  }

  /** What remains at loop index i, which a comment at the end of input pushes past it. */
  function From(raw: string, i: nat): string {
    if i <= |raw| then raw[i..] else ""
  }

  /** What is still to be produced from inside (quote q) or outside a string. */
  function Todo(rest: string, inString: bool, q: char, d: nat, buf: string): seq<string> {
    if inString then
      var n := LiteralLen(rest, q);
      Tail(rest[n..], d, buf + rest[..n])
    else Tail(rest, d, buf)
  }

  /** One step inside a string: k bytes are copied, two for a doubled quote. */
  lemma TodoInString(rest: string, q: char, d: nat, buf: string, k: nat)
    requires rest != "" && k <= |rest|
    requires k == if rest[0] == q && |rest| >= 2 && rest[1] == q then 2 else 1
    ensures Todo(rest, true, q, d, buf)
         == Todo(rest[k..], rest[0] != q || k == 2, q, d, buf + rest[..k])
  {
    hide Tail;
    var n := LiteralLen(rest, q);
    var m := if rest[0] == q && k == 1 then 0 else LiteralLen(rest[k..], q);
    assert n == k + m;
    assert rest[n..] == rest[k..][m..];
    assert buf + rest[..n] == buf + rest[..k] + rest[k..][..m];
    assert rest[k..][0..] == rest[k..];
  }

  /** An opening quote. */
  lemma TodoQuote(rest: string, q: char, d: nat, buf: string)
    requires rest != "" && IsQuote(rest[0])
    ensures Todo(rest, false, q, d, buf) == Todo(rest[1..], true, rest[0], d, buf + [rest[0]])
  {
    hide Tail;
    TailStep(rest, d, buf);
    var n := LiteralLen(rest[1..], rest[0]);
    assert rest[1 + n..] == rest[1..][n..];
    assert buf + rest[..1 + n] == buf + [rest[0]] + rest[1..][..n];
  }

  lemma LineLenIs(s: string, n: nat)
    requires n <= |s|
    requires forall j | 0 <= j < n :: s[j] != '\n'
    requires n < |s| ==> s[n] == '\n'
    ensures LineLen(s) == if n < |s| then n + 1 else n
  {
    if n > 0 {
      LineLenIs(s[1..], n - 1);
    }
  }

  /** A comment whose text before the newline has n bytes. */
  lemma TodoComment(rest: string, q: char, d: nat, buf: string, n: nat)
    requires AtComment(rest) && n <= |rest|
    requires forall j | 0 <= j < n :: rest[j] != '\n'
    requires n < |rest| ==> rest[n] == '\n'
    ensures Todo(rest, false, q, d, buf) == Todo(From(rest, n + 1), false, q, d, buf + "\n")
  {
    hide Tail;
    LineLenIs(rest, n);
    TailStep(rest, d, buf);
    assert rest[|rest|..] == "";
  }

  /** Any other byte, with the count the keyword tests leave. */
  lemma TodoByte(rest: string, q: char, d: nat, buf: string)
    requires rest != "" && !IsQuote(rest[0]) && !AtComment(rest)
    ensures var e := if KeywordTest(rest, "BEGIN") then d + 1
                     else if KeywordTest(rest, "END") && d > 0 then d - 1 else d;
            && Todo(rest, false, q, d, buf)
            == (if rest[0] == ';' && e == 0 then Emit(buf) + Todo(rest[1..], false, q, 0, "")
                else Todo(rest[1..], false, q, e, buf + [rest[0]]))
            && !(KeywordTest(rest, "BEGIN") && KeywordTest(rest, "END"))
  {
    hide Tail, Emit, KeywordTest;
    KeywordTestFindsWords(rest, "BEGIN");
    KeywordTestFindsWords(rest, "END");
    TailStep(rest, d, buf);
    assert rest[..1] == [rest[0]];
    if rest[0] == ';' {
      assert IdentRun(rest) == 0 && UpperAll(rest[..0]) == "";
    }
  }

  /** The loop invariant: what was produced, and what the rest will produce,
      are the statements of raw. */
  predicate OnTrack(raw: string, stmts: seq<string>, i: nat, inString: bool, q: char, d: nat, buf: string) {
    stmts + Todo(From(raw, i), inString, q, d, buf) == Statements(raw)
  }

  predicate KeywordAt(raw: string, i: nat, w: string)
    requires i < |raw|
  {
    KeywordTest(raw[i..], w)
  }

  /** The count behind byte i. */
  function NestAt(raw: string, i: nat, d: nat): nat
    requires i < |raw|
  {
    if KeywordAt(raw, i, "BEGIN") then d + 1 else if KeywordAt(raw, i, "END") && d > 0 then d - 1 else d
  }

  predicate CommentAt(raw: string, i: nat)
    requires i < |raw|
  {
    raw[i] == '-' && i + 1 < |raw| && raw[i + 1] == '-'
  }

  lemma StepInString(raw: string, stmts: seq<string>, i: nat, q: char, d: nat, buf: string)
    requires i < |raw| && OnTrack(raw, stmts, i, true, q, d, buf)
    ensures raw[i] == q && i + 1 < |raw| && raw[i + 1] == q ==>
            OnTrack(raw, stmts, i + 2, true, q, d, buf + [raw[i]] + [raw[i + 1]])
    ensures !(raw[i] == q && i + 1 < |raw| && raw[i + 1] == q) ==>
            OnTrack(raw, stmts, i + 1, raw[i] != q, q, d, buf + [raw[i]])
  {
    hide Todo, Statements;
    var rest := raw[i..];
    var k := if raw[i] == q && i + 1 < |raw| && raw[i + 1] == q then 2 else 1;
    TodoInString(rest, q, d, buf, k);
    assert rest[k..] == raw[i + k..];
    assert buf + rest[..k] == if k == 2 then buf + [raw[i]] + [raw[i + 1]] else buf + [raw[i]];
  }

  lemma StepQuote(raw: string, stmts: seq<string>, i: nat, q: char, d: nat, buf: string)
    requires i < |raw| && OnTrack(raw, stmts, i, false, q, d, buf) && IsQuote(raw[i])
    ensures OnTrack(raw, stmts, i + 1, true, raw[i], d, buf + [raw[i]])
  {
    hide Todo, Statements;
    TodoQuote(raw[i..], q, d, buf);
    assert raw[i..][1..] == raw[i + 1..];
  }

  predicate NoNewline(raw: string, i: nat, end: nat)
    requires i <= end <= |raw|
  {
    forall j | i <= j < end :: raw[j] != '\n'
  }

  lemma NoNewlineStep(raw: string, i: nat, end: nat)
    requires i <= end <= |raw|
    ensures NoNewline(raw, i, i)
    ensures NoNewline(raw, i, end) && end < |raw| && raw[end] != '\n' ==> NoNewline(raw, i, end + 1)
  {
  }

  lemma StepComment(raw: string, stmts: seq<string>, i: nat, q: char, d: nat, buf: string, end: nat)
    requires i < |raw| && i <= end <= |raw| && OnTrack(raw, stmts, i, false, q, d, buf) && CommentAt(raw, i)
    requires NoNewline(raw, i, end) && (end < |raw| ==> raw[end] == '\n')
    ensures OnTrack(raw, stmts, end + 1, false, q, d, buf + "\n")
  {
    hide Todo, Statements;
    TodoComment(raw[i..], q, d, buf, end - i);
    assert From(raw[i..], end - i + 1) == From(raw, end + 1);
  }

  lemma StepByte(raw: string, stmts: seq<string>, i: nat, q: char, d: nat, buf: string)
    requires i < |raw| && OnTrack(raw, stmts, i, false, q, d, buf)
    requires !IsQuote(raw[i]) && !CommentAt(raw, i)
    ensures raw[i] == ';' && NestAt(raw, i, d) == 0 ==> OnTrack(raw, stmts + Emit(buf), i + 1, false, q, 0, "")
    ensures !(raw[i] == ';' && NestAt(raw, i, d) == 0) ==>
            OnTrack(raw, stmts, i + 1, false, q, NestAt(raw, i, d), buf + [raw[i]])
    ensures !(KeywordAt(raw, i, "BEGIN") && KeywordAt(raw, i, "END"))
    ensures NestAt(raw, i, d)
         == if KeywordAt(raw, i, "BEGIN") then d + 1 else if KeywordAt(raw, i, "END") && d > 0 then d - 1 else d
  {
    hide Todo, Statements, KeywordTest, Emit;
    TodoByte(raw[i..], q, d, buf);
    assert raw[i..][1..] == raw[i + 1..];
  }

  lemma StepStart(raw: string)
    ensures forall q :: OnTrack(raw, [], 0, false, q, 0, "")
  {
    TailStart(raw);
    assert From(raw, 0) == raw;
  }

  /** A byte equal to the quotes is a quote, two dashes start a comment, and a
      blank buffer emits nothing. */
  lemma ScanTests(raw: string, i: nat, stmts: seq<string>, buf: string)
    requires i < |raw|
    ensures IsQuote(raw[i]) <==> raw[i] == '\'' || raw[i] == '"'
    ensures CommentAt(raw, i) <==> raw[i] == '-' && i + 1 < |raw| && raw[i + 1] == '-'
    ensures stmts + Emit(buf) == if TrimSpace(buf) != "" then stmts + [TrimSpace(buf)] else stmts
  {
    hide TrimSpace;
  }

  lemma StepEnd(raw: string, stmts: seq<string>, i: nat, inString: bool, q: char, d: nat, buf: string)
    requires i >= |raw| && OnTrack(raw, stmts, i, inString, q, d, buf)
    ensures Statements(raw) == if TrimSpace(buf) != "" then stmts + [TrimSpace(buf)] else stmts
  {
    hide TrimSpace, Statements;
    assert From(raw, i) == "";
    assert buf + Render([]) == buf;
    assert buf + "" == buf;
  }

  method SplitSQL(raw: string) returns (stmts: seq<string>)
    ensures stmts == Statements(raw)
  {
    hide *;
    stmts := [];
    var buf := "";
    var depth: nat := 0;
    var inString := false;
    var stringChar := ' ';
    var i := 0;
    StepStart(raw);
    while i < |raw|
      invariant 0 <= i <= |raw| + 1
      invariant OnTrack(raw, stmts, i, inString, stringChar, depth, buf)
      decreases |raw| + 1 - i
    {
      var ch := raw[i];
      ScanTests(raw, i, stmts, buf);
      if inString {
        StepInString(raw, stmts, i, stringChar, depth, buf);
        buf := buf + [ch];
        if ch == stringChar {
          if i + 1 < |raw| && raw[i + 1] == stringChar {
            buf := buf + [raw[i + 1]];
            i := i + 1;
          } else {
            inString := false;
          }
        }
        i := i + 1;
        continue;
      }
      if ch == '\'' || ch == '"' {
        StepQuote(raw, stmts, i, stringChar, depth, buf);
        inString := true;
        stringChar := ch;
        buf := buf + [ch];
        i := i + 1;
        continue;
      }
      if ch == '-' && i + 1 < |raw| && raw[i + 1] == '-' {
        ghost var start := i;
        NoNewlineStep(raw, start, i);
        while i < |raw| && raw[i] != '\n'
          invariant start <= i <= |raw|
          invariant NoNewline(raw, start, i)
        {
          NoNewlineStep(raw, start, i);
          i := i + 1;
        }
        StepComment(raw, stmts, start, stringChar, depth, buf, i);
        buf := buf + "\n";
        i := i + 1;
        continue;
      }
      StepByte(raw, stmts, i, stringChar, depth, buf);
      if KeywordAt(raw, i, "BEGIN") {
        depth := depth + 1;
      }
      if KeywordAt(raw, i, "END") && depth > 0 {
        depth := depth - 1;
      }
      if ch == ';' && depth == 0 {
        var s := TrimSpace(buf);
        if s != "" {
          stmts := stmts + [s];
        }
        buf := "";
        i := i + 1;
        continue;
      }
      buf := buf + [ch];
      i := i + 1;
    }
    StepEnd(raw, stmts, i, inString, stringChar, depth, buf);
    var s := TrimSpace(buf);
    if s != "" {
      stmts := stmts + [s];
    }
  }
}
