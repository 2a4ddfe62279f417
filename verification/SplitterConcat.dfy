/** Splitting is a homomorphism at closed cuts. */
module SplitterConcat {
  import opened Text
  import opened Splitter
  import opened SplitterTheorems

  // ----- Lexing over a boundary -----

  /** A byte that no token reaches across: not in a word, a dash or a quote. */
  predicate Inert(c: char) { !IsIdentChar(c) && c != '-' && !IsQuote(c) }

  /** No token can span the boundary between a and b. */
  predicate Edge(a: string, b: string) {
    a == "" || b == "" || Inert(a[|a| - 1]) || Inert(b[0])
  }

  /** The input stops inside a string or a comment. */
  predicate EndsOpen(ts: seq<Token>) {
    ts != [] && (ts[|ts| - 1].kind.OpenLiteral? || ts[|ts| - 1].kind.OpenComment?)
  }

  lemma {:induction false} IdentRunConcat(a: string, b: string)
    requires Edge(a, b) && (a == "" ==> b == "" || !IsIdentChar(b[0]))
    ensures IdentRun(a + b) == IdentRun(a) && (a + b)[..IdentRun(a)] == a[..IdentRun(a)]
  {
    if a == "" {
      assert a + b == b;
    } else if IsIdentChar(a[0]) {
      assert (a + b)[1..] == a[1..] + b;
      IdentRunConcat(a[1..], b);
    }
  }

  lemma {:induction false} LiteralConcat(s: string, q: char, b: string)
    requires LiteralCloses(s, q)
    requires LiteralLen(s, q) < |s| || b == "" || b[0] != q
    ensures LiteralCloses(s + b, q) && LiteralLen(s + b, q) == LiteralLen(s, q)
  {
    if s[0] != q {
      assert (s + b)[1..] == s[1..] + b;
      LiteralConcat(s[1..], q, b);
    } else if |s| >= 2 && s[1] == q {
      assert (s + b)[2..] == s[2..] + b;
      LiteralConcat(s[2..], q, b);
    }
  }

  lemma {:induction false} LineConcat(s: string, b: string)
    requires s != "" && s[LineLen(s) - 1] == '\n'
    ensures LineLen(s + b) == LineLen(s)
  {
    if s[0] != '\n' {
      assert (s + b)[1..] == s[1..] + b;
      LineConcat(s[1..], b);
    }
  }

  lemma {:induction false} OpenLiteralLen(s: string, q: char)
    requires !LiteralCloses(s, q)
    ensures LiteralLen(s, q) == |s|
  {
    if s != "" {
      if s[0] != q { OpenLiteralLen(s[1..], q); } else { OpenLiteralLen(s[2..], q); }
    }
  }

  lemma {:induction false} LineEnd(s: string)
    requires s != ""
    ensures s[LineLen(s) - 1] != '\n' ==> LineLen(s) == |s|
  {
    if s[0] != '\n' && |s| > 1 {
      LineEnd(s[1..]);
    }
  }

  /** A string or comment without its end runs to the end of the input. */
  lemma OpenTakesAll(a: string)
    requires a != ""
    ensures Next(a).kind.OpenLiteral? || Next(a).kind.OpenComment? ==> Next(a).src == a
  {
    if IsQuote(a[0]) {
      if !LiteralCloses(a[1..], a[0]) { OpenLiteralLen(a[1..], a[0]); }
    } else {
      LineEnd(a);
    }
  }

  lemma NextLiteralConcat(a: string, b: string)
    requires a != "" && Edge(a, b) && IsQuote(a[0]) && LiteralCloses(a[1..], a[0])
    ensures Next(a + b) == Next(a)
  {
    hide Inert, AtWord, LiteralCloses;
    var n := LiteralLen(a[1..], a[0]);
    LiteralEndsWithQuote(a[1..], a[0]);
    assert a[n] == a[0];
    QuoteIsNotInert(a[0]);
    assert (a + b)[1..] == a[1..] + b;
    LiteralConcat(a[1..], a[0], b);
    assert (a + b)[..1 + n] == a[..1 + n];
  }

  lemma QuoteIsNotInert(q: char)
    requires IsQuote(q)
    ensures !Inert(q)
  {
  }

  lemma NextConcat(a: string, b: string)
    requires a != "" && Edge(a, b)
    requires !Next(a).kind.OpenLiteral? && !Next(a).kind.OpenComment?
    ensures Next(a + b) == Next(a)
  {
    hide LiteralCloses, LineLen, IdentRun;
    var c := a[0];
    if IsQuote(c) {
      NextLiteralConcat(a, b);
    } else if AtComment(a) {
      LineConcat(a, b);
      assert (a + b)[..LineLen(a)] == a[..LineLen(a)];
    } else {
      if IsIdentChar(c) {
        IdentRunConcat(a, b);
      } else {
        NoIdentRun(a);
        NoIdentRun(a + b);
      }
      assert (a + b)[..1] == a[..1];
    }
  }

  lemma NoIdentRun(a: string)
    requires a != "" && !IsIdentChar(a[0])
    ensures IdentRun(a) == 0
  {
  }

  lemma {:induction false} LexConcat(a: string, b: string)
    requires !EndsOpen(Lex(a)) && Edge(a, b)
    ensures Lex(a + b) == Lex(a) + Lex(b)
  {
    hide Next;
    if a == "" {
      assert a + b == b;
    } else {
      var n := |Next(a).src|;
      var t := a[n..];
      if t == "" {
        assert Lex(a)[|Lex(a)| - 1] == Next(a);
      } else {
        assert t[|t| - 1] == a[|a| - 1];
        assert Lex(a)[|Lex(a)| - 1] == Lex(t)[|Lex(t)| - 1];
        OpenTakesAll(a);
      }
      NextConcat(a, b);
      assert (a + b)[n..] == t + b;
      LexConcat(t, b);
    }
  }

  // ----- Segments over a boundary -----

  /** Segment lists run together: the last of A and the first of B become one. */
  function Splice(A: seq<seq<Token>>, B: seq<seq<Token>>): seq<seq<Token>>
    requires A != [] && B != []
  {
    A[..|A| - 1] + [A[|A| - 1] + B[0]] + B[1..]
  }

  lemma SpliceTail(x: seq<Token>, A: seq<seq<Token>>, B: seq<seq<Token>>)
    requires A != [] && B != []
    ensures Splice([x] + A, B) == [x] + Splice(A, B)
  {
    assert ([x] + A)[..|A|] == [x] + A[..|A| - 1];
  }

  lemma SpliceHead(t: Token, A: seq<seq<Token>>, B: seq<seq<Token>>)
    requires A != [] && B != []
    ensures Splice([[t] + A[0]] + A[1..], B) == var S := Splice(A, B); [[t] + S[0]] + S[1..]
  {
    var x := [t] + A[0];
    if |A| == 1 {
      assert [t] + (A[0] + B[0]) == x + B[0];
      assert [x] + A[1..] == [x];
      assert Splice(A, B)[1..] == B[1..];
    } else {
      SpliceTail(x, A[1..], B);
      SpliceTail(A[0], A[1..], B);
      assert A == [A[0]] + A[1..];
    }
  }

  lemma {:induction false} SegmentsConcat(d: nat, ta: seq<Token>, tb: seq<Token>)
    ensures Segments(d, ta + tb) == Splice(Segments(d, ta), Segments(Depth(d, ta), tb))
    decreases ta
  {
    hide Splice;
    var B := Segments(Depth(d, ta), tb);
    if ta == [] {
      assert ta + tb == tb;
      SpliceUnit(B);
    } else {
      var e := Nest(d, ta[0].kind);
      assert (ta + tb)[1..] == ta[1..] + tb;
      SegmentsConcat(e, ta[1..], tb);
      SpliceTail([], Segments(e, ta[1..]), B);
      SpliceHead(ta[0], Segments(e, ta[1..]), B);
    }
  }

  lemma SpliceUnit(B: seq<seq<Token>>)
    requires B != []
    ensures Splice([[]], B) == B
  {
    assert [] + B[0] == B[0];
  }

  lemma {:induction false} FinishConcat(a: seq<seq<Token>>, b: seq<seq<Token>>)
    ensures Finish(a + b) == Finish(a) + Finish(b)
  {
    hide Emit;
    if a == [] {
      assert a + b == b;
    } else {
      assert (a + b)[1..] == a[1..] + b;
      FinishConcat(a[1..], b);
    }
  }

  function Pending(ts: seq<Token>): seq<Token> {
    var segs := Segments(0, ts);
    segs[|segs| - 1]
  }

  /** The splitter stands at a closed cut behind a: count zero, outside strings
      and comments, nothing but white space pending. */
  predicate Closed(a: string) {
    !EndsOpen(Lex(a)) && Depth(0, Lex(a)) == 0 && Blank(Render(Pending(Lex(a))))
  }

  lemma EmitBlankFirst(w: string, x: string)
    requires Blank(w)
    ensures Emit(w) == [] && Emit(w + x) == Emit(x)
  {
    TrimLeftSkipsBlank(w, x);
  }

  lemma FinishCons(x: seq<Token>, b: seq<seq<Token>>)
    ensures Finish([x] + b) == Emit(Render(x)) + Finish(b)
  {
    hide Emit;
    assert ([x] + b)[1..] == b;
  }

  lemma FinishMerge(A: seq<seq<Token>>, B: seq<seq<Token>>)
    requires A != [] && B != [] && Blank(Render(A[|A| - 1]))
    ensures Finish(Splice(A, B)) == Finish(A) + Finish(B)
  {
    hide Emit, Blank, TrimSpace, Finish;
    var h, l := A[..|A| - 1], A[|A| - 1];
    RenderConcat(l, B[0]);
    EmitBlankFirst(Render(l), Render(B[0]));
    assert A == h + [l] && B == [B[0]] + B[1..];
    assert Splice(A, B) == h + ([l + B[0]] + B[1..]);
    FinishConcat(h, [l]);
    FinishCons(l, []);
    FinishConcat(h, [l + B[0]] + B[1..]);
    FinishCons(l + B[0], B[1..]);
    FinishCons(B[0], B[1..]);
    assert [l] + [] == [l];
    FinishEmpty();
  }

  lemma FinishEmpty()
    ensures Finish([]) == []
  {
  }

  lemma NextSource(a: string)
    requires a != ""
    ensures Next(a).src != ""
    ensures Next(a).kind.Comment? ==> Next(a).src[|Next(a).src| - 1] == '\n'
    ensures Next(a).kind.Semi? ==> Next(a).src == ";"
  {
    hide AtWord, LiteralCloses, LiteralLen;
  }

  lemma {:induction false} LastSource(a: string)
    requires a != ""
    ensures Lex(a) != []
    ensures var t := Lex(a)[|Lex(a)| - 1];
            && t.src != "" && t.src[|t.src| - 1] == a[|a| - 1]
            && (t.kind.Comment? ==> a[|a| - 1] == '\n')
            && (t.kind.Semi? ==> t.src == ";")
  {
    hide Next;
    NextSource(a);
    var rest := a[|Next(a).src|..];
    if rest != "" {
      LastSource(rest);
      assert Lex(a)[|Lex(a)| - 1] == Lex(rest)[|Lex(rest)| - 1];
    } else {
      assert Next(a).src == a;
    }
  }

  /** How the last segment comes from that of the remaining tokens. */
  lemma LastSegment(d: nat, ts: seq<Token>)
    requires ts != []
    ensures var cut := ts[0].kind.Semi? && d == 0;
            var S, R := Segments(d, ts), Segments(if cut then 0 else Nest(d, ts[0].kind), ts[1..]);
            && (|S| == 1 <==> !cut && |R| == 1)
            && S[|S| - 1] == if |S| == 1 then [ts[0]] + R[0] else R[|R| - 1]
  {
  }

  lemma {:induction false} LastPending(d: nat, ts: seq<Token>)
    requires ts != []
    ensures var segs := Segments(d, ts); var p := segs[|segs| - 1];
            if p == [] then ts[|ts| - 1].kind.Semi? else p[|p| - 1] == ts[|ts| - 1]
    decreases ts
  {
    hide Segments;
    LastSegment(d, ts);
    var e := if ts[0].kind.Semi? && d == 0 then 0 else Nest(d, ts[0].kind);
    if |ts| == 1 {
      assert ts[1..] == [];
      SegmentsOfNone(e);
    } else {
      LastPending(e, ts[1..]);
      SegmentsNotEmptyFirst(e, ts[1..]);
    }
  }

  lemma SegmentsOfNone(e: nat)
    ensures Segments(e, []) == [[]]
  {
  }

  lemma SegmentsNotEmptyFirst(e: nat, ts: seq<Token>)
    requires ts != []
    ensures |Segments(e, ts)| == 1 ==> Segments(e, ts)[0] != []
  {
  }

  lemma {:induction false} RenderLast(ts: seq<Token>)
    requires ts != []
    ensures ts[|ts| - 1].Out() != "" ==>
            Render(ts) != "" && Render(ts)[|Render(ts)| - 1] == ts[|ts| - 1].Out()[|ts[|ts| - 1].Out()| - 1]
  {
    assert ts == ts[..|ts| - 1] + [ts[|ts| - 1]];
    RenderConcat(ts[..|ts| - 1], [ts[|ts| - 1]]);
    assert Render([ts[|ts| - 1]]) == ts[|ts| - 1].Out() + Render([]);
  }

  lemma NeutralIsInert(c: char)
    requires Neutral(c) || c == ';'
    ensures Inert(c)
  {
  }

  lemma BlankLast(s: string)
    requires Blank(s) && s != ""
    ensures Neutral(s[|s| - 1])
  {
    BlankIsNeutral(s);
  }

  lemma ClosedEndsInert(a: string)
    requires Closed(a) && a != ""
    ensures Inert(a[|a| - 1])
  {
    hide Blank, Render, Lex, Neutral, Inert, Segments;
    var ts := Lex(a);
    LexNonempty(a);
    var t := ts[|ts| - 1];
    LastSource(a);
    LastPending(0, ts);
    NeutralIsInert(';');
    NeutralIsInert('\n') by { NewlineIsNeutral(); }
    var p := Pending(ts);
    if p != [] && !t.kind.Comment? {
      RenderLast(p);
      BlankLast(Render(p));
      NeutralIsInert(a[|a| - 1]);
    }
  }

  lemma NewlineIsNeutral()
    ensures Neutral('\n')
  {
  }

  lemma LexNonempty(a: string)
    requires a != ""
    ensures Lex(a) != []
  {
  }

  /** At a closed cut the statements of the two halves are the statements of the whole. */
  lemma SplitAtClosedCut(a: string, b: string)
    requires Closed(a)
    ensures Statements(a + b) == Statements(a) + Statements(b)
  {
    hide Blank, Lex, Segments, Render, Finish;
    if a != "" { ClosedEndsInert(a); }
    LexConcat(a, b);
    SegmentsConcat(0, Lex(a), Lex(b));
    FinishMerge(Segments(0, Lex(a)), Segments(0, Lex(b)));
  }
}
