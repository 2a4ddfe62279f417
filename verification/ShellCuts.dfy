/** Exactly when piping lines into the shell runs the statements of the batch:
    when no flush falls inside a statement that later input goes on with. */
module ShellCuts {
  import opened Text
  import opened Splitter
  import opened SplitterTheorems
  import opened SplitterConcat
  import opened SplitterNormalForm
  import opened Shell
  import opened Trimming

  // ----- Trimming a longer text -----

  predicate EndsLine(s: string) { s != "" && s[|s| - 1] == '\n' }

  lemma NewlineAtBack(s: string)
    requires EndsLine(s)
    ensures BackSpace(s) == 1
  {
  }

  /** A full line p, not blank, reads the same with more text behind it exactly
      when that text is white space. */
  lemma TrimGrows(p: string, c: string)
    requires EndsLine(p) && !Blank(p)
    ensures TrimSpace(p + c) == TrimSpace(p) <==> Blank(c)
    ensures !Blank(p + c)
  {
    hide TrimLeft, TrimRight, Blank, FrontSpace, BackSpace;
    var w1, w2 := TrimShape(p);
    var t := TrimSpace(p);
    if w2 == "" {
      assert p == w1 + t;
      assert EndsLine(t);
      NewlineAtBack(t);
      assert false;
    }
    BlankFront(w2);
    FrontSpaceBeforeBlank(t, w2, c);
    assert p + c == w1 + (t + w2 + c);
    TrimLeftSkipsBlank(w1, t + w2 + c);
    FrontZeroTrim(t + w2 + c);
    assert TrimSpace(p + c) == TrimRight(t + w2 + c);
    NotBlank(p + c);
    BlankConcat(w2, c);
    Assoc(t, w2, c);
    if Blank(c) {
      BlankTrimsRight(w2 + c);
      TrimRightSkipsBlank(t, w2 + c);
      BackZeroTrim(t);
    }
    if TrimRight(t + w2 + c) == t {
      var v := TrimRightShape(t + w2 + c);
      assert v == (t + v)[|t|..] == (t + (w2 + c))[|t|..] == w2 + c;
    }
  }

  // ----- What a flush interrupts -----

  /** What the whole input a + b adds to the segment that is pending behind a. */
  function Added(a: string, b: string): string {
    var A, W := Segments(0, Lex(a)), Segments(0, Lex(a + b));
    if |W| < |A| || |Render(W[|A| - 1])| < |Render(A[|A| - 1])| then ""
    else Render(W[|A| - 1])[|Render(A[|A| - 1])|..]
  }

  /** Flushing behind a interrupts no statement: nothing is pending, or nothing
      but white space comes to it. */
  predicate CleanFlush(a: string, b: string) {
    Blank(Render(Pending(Lex(a)))) || Blank(Added(a, b))
  }

  /** The whole input's segments are a's, with c added to the pending one and
      then `more`. */
  ghost predicate Continues(a: string, b: string, c: string, more: seq<seq<Token>>) {
    var A, W := Segments(0, Lex(a)), Segments(0, Lex(a + b));
    && |W| == |A| + |more|
    && W[..|A| - 1] == A[..|A| - 1]
    && W[|A|..] == more
    && Render(W[|A| - 1]) == Render(A[|A| - 1]) + c
  }

  lemma ContinuesAdds(a: string, b: string, c: string, more: seq<seq<Token>>)
    requires Continues(a, b, c, more)
    ensures Added(a, b) == c
  {
    hide Lex, Render, Segments;
  }

  lemma SpliceShape(A: seq<seq<Token>>, B: seq<seq<Token>>)
    requires A != [] && B != []
    ensures var W := Splice(A, B);
            |W| == |A| + |B| - 1 && W[..|A| - 1] == A[..|A| - 1]
            && W[|A| - 1] == A[|A| - 1] + B[0] && W[|A|..] == B[1..]
  {
  }

  /** Behind a token boundary the rest is scanned on its own, from a's count. */
  lemma ContinuesAtBoundary(a: string, b: string)
    requires EndsLine(a) && !EndsOpen(Lex(a))
    ensures var B := Segments(Depth(0, Lex(a)), Lex(b)); Continues(a, b, Render(B[0]), B[1..])
  {
    hide Lex, Render, Segments, Depth, Splice;
    NewlineIsNeutral();
    NeutralIsInert('\n');
    LexConcat(a, b);
    SegmentsConcat(0, Lex(a), Lex(b));
    var A, B := Segments(0, Lex(a)), Segments(Depth(0, Lex(a)), Lex(b));
    SpliceShape(A, B);
    RenderConcat(A[|A| - 1], B[0]);
  }

  // ----- A flush inside a string -----

  /** A string left open goes on into what follows. */
  lemma {:induction false} OpenLiteralGoesOn(s: string, q: char, b: string)
    requires !LiteralCloses(s, q)
    ensures LiteralLen(s + b, q) == |s| + LiteralLen(b, q) && LiteralCloses(s + b, q) == LiteralCloses(b, q)
  {
    if s == "" {
      assert s + b == b;
    } else if s[0] != q {
      assert (s + b)[1..] == s[1..] + b;
      OpenLiteralGoesOn(s[1..], q, b);
    } else {
      assert (s + b)[2..] == s[2..] + b;
      OpenLiteralGoesOn(s[2..], q, b);
    }
  }

  /** The string token l that a's open string becomes when x of b is read into it. */
  ghost predicate Absorbs(a: string, b: string, x: string, l: Token) {
    var ts := Lex(a);
    && EndsOpen(ts) && ts[|ts| - 1].kind.OpenLiteral?
    && x <= b
    && l.src == ts[|ts| - 1].src + x
    && (l.kind.OpenLiteral? || l.kind.Literal?)
    && (l.kind.OpenLiteral? ==> x == b)
    && (l.kind.Literal? ==> x != "" && IsQuote(x[|x| - 1]))
    && Lex(a + b) == ts[..|ts| - 1] + ([l] + Lex(b[|x|..]))
  }

  lemma AbsorbOne(a: string, b: string) returns (x: string, l: Token)
    requires a != "" && IsQuote(a[0]) && !LiteralCloses(a[1..], a[0])
    ensures Absorbs(a, b, x, l)
  {
    hide AtWord, LiteralCloses, LiteralLen;
    var q := a[0];
    var n := LiteralLen(b, q);
    x := b[..n];
    OpenLiteralAll(a);
    assert a[|a|..] == "";
    assert Lex(a) == [Token(OpenLiteral, a)];
    assert (a + b)[1..] == a[1..] + b;
    OpenLiteralGoesOn(a[1..], q, b);
    l := Next(a + b);
    assert (a + b)[..|a| + n] == a + x;
    assert (a + b)[|a| + n..] == b[n..];
    assert Lex(a)[..0] + [l] == [l];
    if LiteralCloses(b, q) {
      LiteralEndsWithQuote(b, q);
    } else {
      OpenLiteralLen(b, q);
    }
  }

  lemma AbsorbCons(a: string, b: string, x: string, l: Token)
    requires a != "" && |Next(a).src| < |a|
    requires Next(a + b) == Next(a) && Absorbs(a[|Next(a).src|..], b, x, l)
    ensures Absorbs(a, b, x, l)
  {
    hide Next;
    var t := Next(a);
    var rest := a[|t.src|..];
    assert (a + b)[|t.src|..] == rest + b;
    ConsInit(t, Lex(rest), [l] + Lex(b[|x|..]));
  }

  lemma ConsInit(t: Token, ts: seq<Token>, more: seq<Token>)
    requires ts != []
    ensures var all := [t] + ts;
            && all[|all| - 1] == ts[|ts| - 1]
            && all[..|all| - 1] + more == [t] + (ts[..|ts| - 1] + more)
  {
  }

  lemma {:induction false} AbsorbOpen(a: string, b: string) returns (x: string, l: Token)
    requires EndsOpen(Lex(a)) && Lex(a)[|Lex(a)| - 1].kind.OpenLiteral?
    requires EndsLine(a)
    ensures Absorbs(a, b, x, l)
    decreases a
  {
    hide Next, Absorbs;
    var t := Next(a);
    OpenKinds(a);
    if t.src == a {
      assert a[|a|..] == "";
      assert Lex(a) == [t];
      x, l := AbsorbOne(a, b);
    } else {
      OpenTakesAll(a);
      NewlineIsNeutral();
      NeutralIsInert('\n');
      NextConcat(a, b);
      var rest := a[|t.src|..];
      assert Lex(a)[|Lex(a)| - 1] == Lex(rest)[|Lex(rest)| - 1];
      x, l := AbsorbOpen(rest, b);
      AbsorbCons(a, b, x, l);
    }
  }

  lemma LiteralSegment(e: nat, l: Token, L: seq<Token>)
    requires l.kind.OpenLiteral? || l.kind.Literal?
    ensures var r := Segments(e, L); Segments(e, [l] + L) == [[l] + r[0]] + r[1..]
    ensures Render([l] + Segments(e, L)[0]) == l.src + Render(Segments(e, L)[0])
  {
    assert ([l] + L)[1..] == L;
    var r := Segments(e, L);
    assert ([l] + r[0])[1..] == r[0];
  }

  /** Inside a string the rest of the string joins the pending segment, and the
      scan goes on behind it. */
  lemma ContinuesInString(a: string, b: string, x: string, l: Token) returns (c: string, more: seq<seq<Token>>)
    requires Absorbs(a, b, x, l)
    ensures Continues(a, b, c, more) && x <= c
    ensures x == b ==> c == x && more == []
  {
    hide Lex, Render, Segments, Depth, Splice;
    var ts := Lex(a);
    var h, o := ts[..|ts| - 1], ts[|ts| - 1];
    var L := Lex(b[|x|..]);
    var e := Depth(0, h);
    var H, r := Segments(0, h), Segments(e, L);
    assert ts == h + [o];
    SegmentsConcat(0, h, [o]);
    LiteralSegment(e, o, []);
    SegmentsOfNone(e);
    assert [o] + [] == [o];
    assert Segments(e, [o]) == [[o]];
    SpliceShape(H, [[o]]);
    SegmentsConcat(0, h, [l] + L);
    LiteralSegment(e, l, L);
    SpliceShape(H, [[l] + r[0]] + r[1..]);
    RenderConcat(H[|H| - 1], [o]);
    RenderConcat(H[|H| - 1], [l] + r[0]);
    LiteralSegment(e, o, []);
    c, more := x + Render(r[0]), r[1..];
    Assoc(Render(H[|H| - 1]), o.src, c);
    Assoc(o.src, x, Render(r[0]));
    assert Render([o]) == o.src + Render([]);
    RenderNothing();
    if x == b {
      assert b[|x|..] == "";
      EmptyLex();
      SegmentsOfNone(e);
      assert c == x;
    }
    assert o.src + "" == o.src;
  }

  lemma EmptyLex()
    ensures Lex("") == []
  {
  }

  lemma RenderNothing()
    ensures Render([]) == ""
  {
  }

  // ----- White space holds no token that counts -----

  /** What the lexer guarantees of a token by its kind. */
  predicate Shape(t: Token) {
    match t.kind
    case Open => |t.src| == 1 && IsIdentChar(t.src[0])
    case Close => |t.src| == 1 && IsIdentChar(t.src[0])
    case Literal => t.src != "" && IsQuote(t.src[0])
    case OpenLiteral => t.src != "" && IsQuote(t.src[0])
    case Semi => t.src == ";"
    case OpenComment => t.src != "" && !EndsLine(t.src)
    case _ => true
  }

  predicate Inactive(t: Token) {
    t.kind.Plain? || t.kind.Comment? || t.kind.OpenComment?
  }

  lemma WordIsIdent(s: string, w: string)
    requires s != "" && AtWord(s, w) && w != ""
    ensures IsIdentChar(s[0])
  {
  }

  lemma NextShape(s: string)
    requires s != ""
    ensures Shape(Next(s))
  {
    hide AtWord, LiteralCloses, LiteralLen, LineLen;
    if AtWord(s, "BEGIN") { WordIsIdent(s, "BEGIN"); }
    if AtWord(s, "END") { WordIsIdent(s, "END"); }
  }

  lemma {:induction false} LexShape(s: string)
    ensures forall t | t in Lex(s) :: Shape(t)
  {
    hide Next, Shape;
    if s != "" {
      NextShape(s);
      LexShape(s[|Next(s).src|..]);
    }
  }

  lemma ActiveIsSolid(t: Token)
    requires Shape(t) && !Inactive(t)
    ensures t.Out() != "" && !Neutral(t.Out()[0])
  {
  }

  lemma {:induction false} BlankSegment(seg: seq<Token>)
    requires forall t | t in seg :: Shape(t)
    requires Blank(Render(seg))
    ensures forall t | t in seg :: Inactive(t)
  {
    hide Blank, Shape, Neutral, Inactive;
    BlankIsNeutral(Render(seg));
    forall k | 0 <= k < |seg| ensures Inactive(seg[k]) {
      RenderAround(seg, k);
      assert forall c | c in seg[k].Out() :: c in Render(seg);
      assert seg[k] in seg;
      if !Inactive(seg[k]) {
        ActiveIsSolid(seg[k]);
      }
    }
  }

  lemma {:induction false} InactiveKeepsDepth(d: nat, ts: seq<Token>)
    requires forall t | t in ts :: Inactive(t)
    ensures Depth(d, ts) == d && NoCut(d, ts)
    decreases ts
  {
    if ts != [] {
      assert ts[0] in ts;
      InactiveKeepsDepth(d, ts[1..]);
    }
  }

  lemma {:induction false} PendingShape(d: nat, ts: seq<Token>)
    ensures var segs := Segments(d, ts); var p := segs[|segs| - 1];
            && (forall t | t in p :: t in ts)
            && Depth(d, ts) == Depth(if |segs| == 1 then d else 0, p)
    decreases ts
  {
    hide Segments;
    if ts == [] {
      SegmentsOfNone(d);
    } else {
      LastSegment(d, ts);
      PendingShape(if ts[0].kind.Semi? && d == 0 then 0 else Nest(d, ts[0].kind), ts[1..]);
    }
  }

  /** With nothing but white space pending behind a full line, the cut is closed. */
  lemma BlankPendingIsClosed(a: string)
    requires EndsLine(a) && Blank(Render(Pending(Lex(a))))
    ensures Closed(a)
  {
    hide Lex, Segments, Blank, Depth, Render, Shape;
    var ts := Lex(a);
    LexShape(a);
    PendingShape(0, ts);
    BlankSegment(Pending(ts));
    InactiveKeepsDepth(0, Pending(ts));
    if EndsOpen(ts) {
      var t := ts[|ts| - 1];
      LastSource(a);
      LastPending(0, ts);
      ShapeOfOpen(t, Pending(ts));
    }
  }

  lemma ShapeOfOpen(t: Token, p: seq<Token>)
    requires Shape(t) && t.src != "" && EndsLine(t.src)
    requires t.kind.OpenLiteral? || t.kind.OpenComment?
    requires forall u | u in p :: Inactive(u)
    ensures p == [] || p[|p| - 1] != t
  {
    if p != [] { assert p[|p| - 1] in p; }
  }

  lemma EmitBlank(w: string)
    requires Blank(w)
    ensures Emit(w) == []
  {
    hide Blank, TrimSpace;
    var w1, w2 := TrimShape(w);
  }

  lemma BlankStatements(b: string)
    requires Blank(b)
    ensures Statements(b) == []
  {
    hide Blank, TrimSpace, Statements;
    var w1, w2 := TrimShape(b);
    BlankHasNoStatements(b);
  }

  /** White space up to the next cut: from either count the rest is the same. */
  lemma BlankToCut(e: nat, b: string)
    requires var B := Segments(e, Lex(b)); Blank(Render(B[0]))
    ensures Statements(b) == Finish(Segments(e, Lex(b))[1..])
  {
    hide Lex, Blank, Render, Depth, NoCut, Segments, Emit, Shape;
    var ts := Lex(b);
    var k := FirstCut(e, ts);
    FirstCutShape(e, ts);
    var first := ts[..k];
    assert k == |ts| ==> first == ts;
    LexShape(b);
    assert forall t | t in first :: t in ts;
    BlankSegment(first);
    InactiveKeepsDepth(e, first);
    EmitBlank(Render(first));
    if k < |ts| {
      FinishCons(first, Segments(e, ts)[1..]);
    } else {
      InactiveKeepsDepth(0, ts);
      NoCutOneSegment(0, ts);
      FinishOne(ts);
      FinishEmpty();
    }
  }

  // ----- One flush -----

  /** How the whole input goes on behind a full line a. */
  lemma FlushCases(a: string, b: string) returns (c: string, more: seq<seq<Token>>)
    requires EndsLine(a)
    ensures Continues(a, b, c, more)
    ensures Blank(c) ==> Blank(Render(Pending(Lex(a)))) || Statements(b) == Finish(more)
  {
    hide Lex, Blank, Render, Depth, Segments, Statements, Absorbs, Continues;
    var ts := Lex(a);
    if EndsOpen(ts) {
      LexShape(a);
      LastSource(a);
      OpenLineIsString(ts[|ts| - 1]);
      var x, l := AbsorbOpen(a, b);
      c, more := ContinuesInString(a, b, x, l);
      if Blank(c) {
        BlankIsNeutral(c);
        AbsorbedBlank(a, b, x, l, c);
        BlankStatements(b);
        FinishEmpty();
      }
    } else {
      ContinuesAtBoundary(a, b);
      var B := Segments(Depth(0, ts), Lex(b));
      c, more := Render(B[0]), B[1..];
      if Blank(c) { BlankToCut(Depth(0, ts), b); }
    }
  }

  lemma OpenLineIsString(t: Token)
    requires Shape(t) && EndsLine(t.src) && (t.kind.OpenLiteral? || t.kind.OpenComment?)
    ensures t.kind.OpenLiteral?
  {
  }

  lemma AbsorbedBlank(a: string, b: string, x: string, l: Token, c: string)
    requires Absorbs(a, b, x, l) && x <= c && (forall ch | ch in c :: Neutral(ch))
    ensures x == b
  {
    hide Lex;
    if l.kind.Literal? {
      assert c[|x| - 1] == x[|x| - 1];
      QuoteIsSolid(x[|x| - 1]);
    }
  }

  lemma {:induction false} FinishSplit(W: seq<seq<Token>>, n: nat)
    requires 0 < n <= |W|
    ensures Finish(W) == Finish(W[..n - 1]) + Emit(Render(W[n - 1])) + Finish(W[n..])
  {
    hide Emit, Render, Finish;
    assert W == W[..n - 1] + ([W[n - 1]] + W[n..]);
    FinishConcat(W[..n - 1], [W[n - 1]] + W[n..]);
    FinishCons(W[n - 1], W[n..]);
    AssocLists(Finish(W[..n - 1]), Emit(Render(W[n - 1])), Finish(W[n..]));
  }

  lemma AssocLists(a: seq<string>, b: seq<string>, c: seq<string>)
    ensures a + (b + c) == (a + b) + c
  {
  }

  /** The statements of a and of a + b agree up to what is pending behind a. */
  lemma StatementsGrow(a: string, b: string, c: string, more: seq<seq<Token>>)
    requires Continues(a, b, c, more)
    ensures var A := Segments(0, Lex(a)); var p := Render(Pending(Lex(a)));
            && Statements(a) == Finish(A[..|A| - 1]) + Emit(p)
            && Statements(a + b) == Finish(A[..|A| - 1]) + Emit(p + c) + Finish(more)
  {
    hide Lex, Emit, Render, Segments, Finish;
    var A, W := Segments(0, Lex(a)), Segments(0, Lex(a + b));
    FinishSplit(A, |A|);
    FinishSplit(W, |A|);
    FinishEmpty();
    assert A[|A|..] == [];
  }

  lemma EmitNonBlank(p: string)
    requires !Blank(p)
    ensures Emit(p) == [TrimSpace(p)]
  {
    hide Blank, TrimSpace;
    var w1, w2 := TrimShape(p);
  }

  lemma PendingEndsLine(a: string)
    requires EndsLine(a) && !Blank(Render(Pending(Lex(a))))
    ensures EndsLine(Render(Pending(Lex(a))))
  {
    hide Lex, Segments, Blank;
    var ts := Lex(a);
    var p := Pending(ts);
    LexNonempty(a);
    LastSource(a);
    LastPending(0, ts);
    if p == [] {
      RenderNothing();
      EmptyIsBlank();
    } else {
      RenderLast(p);
    }
  }

  /** One flush behind a full line: the two halves, split apart, give the
      statements of the whole exactly when the flush interrupts none. */
  lemma CleanFlushExactly(a: string, b: string)
    requires EndsLine(a)
    ensures Statements(a) + Statements(b) == Statements(a + b) <==> CleanFlush(a, b)
    ensures !CleanFlush(a, b) ==>
            exists n :: 0 <= n < |Statements(a)| && n < |Statements(a + b)| && Statements(a)[n] != Statements(a + b)[n]
  {
    hide Lex, Blank, Render, Segments, Statements, Emit, Finish, Continues, TrimSpace;
    var p := Render(Pending(Lex(a)));
    if Blank(p) {
      BlankPendingIsClosed(a);
      SplitAtClosedCut(a, b);
    } else {
      var c, more := FlushCases(a, b);
      ContinuesAdds(a, b, c, more);
      StatementsGrow(a, b, c, more);
      var A := Segments(0, Lex(a));
      var pre := Finish(A[..|A| - 1]);
      PendingEndsLine(a);
      TrimGrows(p, c);
      EmitNonBlank(p);
      if Blank(c) {
        EmitSame(p, c);
      } else {
        EmitNonBlank(p + c);
        assert Statements(a)[|pre|] == TrimSpace(p);
        assert Statements(a + b)[|pre|] == TrimSpace(p + c);
        assert (Statements(a) + Statements(b))[|pre|] == TrimSpace(p);
      }
    }
  }

  lemma EmitSame(p: string, c: string)
    requires TrimSpace(p + c) == TrimSpace(p)
    ensures Emit(p + c) == Emit(p)
  {
    hide TrimSpace;
  }

  // ----- All flushes -----

  /** No flush of the run interrupts a statement. */
  predicate CleanFlushes(chunks: seq<string>, left: string) {
    chunks == [] || (CleanFlush(chunks[0], Whole(chunks[1..], left)) && CleanFlushes(chunks[1..], left))
  }

  lemma {:induction false} StreamedExactly(chunks: seq<string>, left: string)
    requires forall c | c in chunks :: EndsLine(c)
    ensures Streamed(chunks) + Statements(left) == Statements(Whole(chunks, left)) <==> CleanFlushes(chunks, left)
  {
    hide Statements, CleanFlush;
    if chunks == [] {
      assert Streamed([]) + Statements(left) == Statements(left);
    } else {
      var a, rest := chunks[0], Whole(chunks[1..], left);
      StreamedExactly(chunks[1..], left);
      CleanFlushExactly(a, rest);
      var x, y, z := Statements(a), Streamed(chunks[1..]), Statements(left);
      AssocLists(x, y, z);
      if CleanFlush(a, rest) {
        assert x + (y + z) == x + Statements(rest) <==> y + z == Statements(rest) by {
          assert (x + (y + z))[|x|..] == y + z;
          assert (x + Statements(rest))[|x|..] == Statements(rest);
        }
      } else {
        var n :| 0 <= n < |x| && n < |Statements(a + rest)| && x[n] != Statements(a + rest)[n];
        assert (x + (y + z))[n] == x[n];
      }
    }
  }

  lemma {:induction false} ChunksEndLines(buf: string, lines: seq<string>)
    ensures forall c | c in Chunks(buf, lines).0 :: EndsLine(c)
    decreases lines
  {
    hide Flushes;
    if lines != [] {
      var text := buf + lines[0] + "\n";
      ChunksEndLines(text, lines[1..]);
      ChunksEndLines("", lines[1..]);
    }
  }

  /** Piped lines run the statements of the batch, whatever they do to the database,
      exactly when no flush interrupts a statement. */
  lemma StreamingEqualsBatchExactly(lines: seq<string>)
    ensures var (chunks, left) := Chunks("", lines);
            Streamed(chunks) + Statements(left) == Statements(Joined(lines)) <==> CleanFlushes(chunks, left)
  {
    hide Statements, CleanFlushes, Chunks;
    var (chunks, left) := Chunks("", lines);
    ChunksAreTheInput("", lines);
    assert "" + Joined(lines) == Joined(lines);
    ChunksEndLines("", lines);
    StreamedExactly(chunks, left);
  }

  /** Then the shell does to any database what the batch does: the same state, the
      same statement failing. */
  lemma StreamingRunsTheBatch<S>(exec: Exec<S>, st: S, lines: seq<string>)
    requires var (chunks, left) := Chunks("", lines); CleanFlushes(chunks, left)
    ensures ShellFrom(exec, st, "", lines, false, false) == RunAll(exec, st, Statements(Joined(lines)))
  {
    hide *;
    var (chunks, left) := Chunks("", lines);
    StreamingEqualsBatchExactly(lines);
    PipedShellRunsChunks(exec, st, "", lines, false);
    RunAllConcat(exec, st, Streamed(chunks), Statements(left));
  }

  // ----- A flush that does interrupt -----

  lemma QuoteNotBlank(s: string)
    requires s != "" && s[0] == '\''
    ensures !Blank(s)
  {
    hide Blank, Neutral;
    QuoteIsSolid('\'');
    if Blank(s) { BlankIsNeutral(s); }
  }

  /** The two lines  ';  and  '  : the first is flushed inside the string that the
      second one closes, so the piped run splits what the batch does not. */
  lemma InterruptedString()
    ensures !CleanFlushes(["';\n"], "'\n")
    ensures Chunks("", ["';", "'"]) == (["';\n"], "'\n")
    ensures Streamed(["';\n"]) + Statements("'\n") != Statements(Joined(["';", "'"]))
  {
    hide Blank, Flushes, CleanFlush, Statements;
    StreamingEqualsBatchExactly(["';", "'"]);
    var a, b := "';\n", "'\n";
    assert ["';", "'"][1..] == ["'"] && ["'"][1..] == [];
    assert "" + "';" + "\n" == a && "" + "'" + "\n" == b;
    QuoteFlush();
    QuoteInterrupted();
    assert Whole([a][1..], b) == b;
    assert Chunks(b, []) == ([], b);
    assert Chunks("", ["'"]) == ([], b);
    assert [a] + [] == [a];
  }

  lemma QuoteFlush()
    ensures Flushes("';\n") && !Flushes("'\n")
  {
    hide TrimSpace;
    QuoteTrim("';");
    QuoteTrim("'");
    assert "';" + "\n" == "';\n" && "'" + "\n" == "'\n";
  }

  lemma QuoteTrim(s: string)
    requires s != "" && !Neutral(s[0]) && !Neutral(s[|s| - 1])
    ensures TrimSpace(s + "\n") == s
  {
    hide TrimLeft, TrimRight, FrontSpace, BackSpace, Neutral;
    SolidFront(s + "\n");
    SolidBack(s);
    FrontZeroTrim(s + "\n");
    NewlineTrims();
    TrimRightSkipsBlank(s, "\n");
    BackZeroTrim(s);
  }

  lemma NewlineTrims()
    ensures TrimRight("\n") == ""
  {
    hide BackSpace;
    NewlineAtBack("\n");
    assert "\n"[..0] == "";
    NoBackSpace();
  }

  lemma QuoteOpen(a: string)
    requires a == "';\n"
    ensures Lex(a) == [Token(OpenLiteral, a)]
  {
    assert a[1..] == ";\n" && ";\n"[1..] == "\n" && "\n"[1..] == "";
    assert !LiteralCloses(a[1..], '\'');
    OpenLiteralAll(a);
    assert a[|a|..] == "";
  }

  lemma QuoteClosed(w: string)
    requires w == "';\n'\n"
    ensures Lex(w) == [Token(Literal, w[..4]), Token(Plain, "\n")]
  {
    hide AtWord;
    var b := "'\n";
    assert w[1..] == ";\n'\n" && w[1..][1..] == "\n'\n" && w[1..][1..][1..] == b;
    assert LiteralLen(b, '\'') == 1 && LiteralCloses(b, '\'');
    assert LiteralLen(w[1..], '\'') == 3 && LiteralCloses(w[1..], '\'');
    assert Next(w) == Token(Literal, w[..4]);
    LexBehindQuote(w, Next(w));
  }

  lemma RenderTwo(l: Token, n: Token)
    ensures Render([l]) == l.Out() && Render([l, n]) == l.Out() + n.Out()
  {
    assert [l, n][1..] == [n];
    assert Render([n]) == n.Out() + Render([]) == n.Out();
    assert Render([l]) == l.Out() + Render([]) == l.Out();
  }

  lemma QuoteInterrupted()
    ensures !CleanFlush("';\n", "'\n")
  {
    hide Blank, Lex, Segments, Render;
    var a, b := "';\n", "'\n";
    var w := a + b;
    var o, l, n := Token(OpenLiteral, a), Token(Literal, w[..4]), Token(Plain, "\n");
    QuoteOpen(a);
    QuoteClosed(w);
    OneSegment([o]);
    OneSegment([l, n]);
    RenderTwo(o, n);
    RenderTwo(l, n);
    assert w[..4] + "\n" == w;
    assert w[3..] == b;
    QuoteNotBlank(a);
    QuoteNotBlank(b);
  }

  lemma LexBehindQuote(w: string, l: Token)
    requires |w| == 5 && w[4] == '\n' && Next(w) == l && |l.src| == 4
    ensures Lex(w) == [l, Token(Plain, "\n")]
  {
    hide Next;
    assert w[4..] == "\n";
    SemiNewline();
    assert Lex(";\n")[1..] == Lex("\n") by { SemiFirst(); }
    assert Lex(w) == [l] + Lex("\n");
  }

  lemma SemiFirst()
    ensures Lex(";\n")[1..] == Lex("\n")
  {
    assert Next(";\n").src == ";" by { assert ";\n"[..1] == ";"; }
    assert ";\n"[1..] == "\n";
  }

  lemma OneSegment(ts: seq<Token>)
    requires forall t | t in ts :: t.kind.OpenLiteral? || t.kind.Literal? || t.kind.Plain?
    ensures Segments(0, ts) == [ts]
  {
    NoCutLiterals(ts);
    NoCutOneSegment(0, ts);
  }

  lemma {:induction false} NoCutLiterals(ts: seq<Token>)
    requires forall t | t in ts :: t.kind.OpenLiteral? || t.kind.Literal? || t.kind.Plain?
    ensures NoCut(0, ts)
  {
    if ts != [] {
      assert ts[0] in ts;
      NoCutLiterals(ts[1..]);
    }
  }
}
