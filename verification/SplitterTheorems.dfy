/** What the splitter promises: lossless tokens, the segmentation a reader would
    write down, concatenation at closed cuts, and a normal form. */
module SplitterTheorems {
  import opened Text
  import opened Splitter

  // ----- Tokens lose nothing -----

  /** The tokens are the input, cut up. */
  lemma {:induction false} LexIsLossless(s: string)
    ensures Source(Lex(s)) == s
  {
    if s != "" {
      LexIsLossless(s[|Next(s).src|..]);
    }
  }

  // ----- The segmentation is the declared one -----

  /** segs cuts ts at exactly the semicolons where the count is zero: joined with
      semicolons it is ts, every segment but the last brings the count back to
      zero, and no segment holds such a semicolon. */
  predicate IsSegmentation(d: nat, ts: seq<Token>, segs: seq<seq<Token>>)
    requires segs != []
    decreases segs
  {
    && (if |segs| == 1 then ts == segs[0]
        else
          && segs[0] + [Token(Semi, ";")] <= ts
          && Depth(d, segs[0]) == 0
          && IsSegmentation(0, ts[|segs[0]| + 1..], segs[1..]))
    && (forall k | 0 <= k < |segs[0]| :: !IsCut(d, segs[0], k))
  }

  lemma {:induction false} NoCutMeans(d: nat, ts: seq<Token>)
    ensures NoCut(d, ts) <==> forall k | 0 <= k < |ts| :: !IsCut(d, ts, k)
    decreases ts
  {
    if ts != [] {
      var e := Nest(d, ts[0].kind);
      NoCutMeans(e, ts[1..]);
      assert forall k | 0 < k < |ts| :: ts[..k][1..] == ts[1..][..k - 1];
      assert forall k | 0 < k < |ts| :: IsCut(d, ts, k) <==> IsCut(e, ts[1..], k - 1);
      assert ts[..0] == [];
      assert IsCut(d, ts, 0) <==> ts[0].kind.Semi? && d == 0;
      if !NoCut(e, ts[1..]) {
        var k :| 0 <= k < |ts[1..]| && IsCut(e, ts[1..], k);
        assert IsCut(d, ts, k + 1);
      }
      if NoCut(d, ts) {
        forall k | 0 <= k < |ts| ensures !IsCut(d, ts, k) {
          if k > 0 { assert !IsCut(e, ts[1..], k - 1); }
        }
      }
    }
  }

  /** Every semicolon token is one byte, as the lexer makes it. */
  predicate PlainSemis(ts: seq<Token>) {
    forall t | t in ts :: t.kind.Semi? ==> t == Token(Semi, ";")
  }

  lemma {:induction false} LexSemis(s: string)
    ensures PlainSemis(Lex(s))
  {
    if s != "" {
      LexSemis(s[|Next(s).src|..]);
    }
  }

  /** Behind a cut a segmentation starts over. */
  lemma SegmentationAtCut(ts: seq<Token>, segs: seq<seq<Token>>)
    requires segs != [] && ts != [] && ts[0] == Token(Semi, ";")
    ensures IsSegmentation(0, ts, segs) <==> |segs| > 1 && segs[0] == [] && IsSegmentation(0, ts[1..], segs[1..])
  {
    hide NoCut;
    if segs[0] != [] && segs[0][0] == ts[0] {
      assert segs[0][..0] == [];
      assert IsCut(0, segs[0], 0);
    }
    if segs[0] == [] && |segs| > 1 {
      assert [] + [Token(Semi, ";")] <= ts;
    }
  }

  /** At any other token the first segment goes on. */
  lemma SegmentationStep(d: nat, ts: seq<Token>, segs: seq<seq<Token>>)
    requires segs != [] && ts != [] && !(ts[0].kind.Semi? && d == 0)
    requires segs[0] != [] && segs[0][0] == ts[0]
    ensures IsSegmentation(d, ts, segs)
       <==> IsSegmentation(Nest(d, ts[0].kind), ts[1..], [segs[0][1..]] + segs[1..])
  {
    hide NoCut;
    var e := Nest(d, ts[0].kind);
    var inner := [segs[0][1..]] + segs[1..];
    NoCutMeans(d, segs[0]);
    NoCutMeans(e, segs[0][1..]);
    NoCutStep(d, segs[0]);
    assert inner[1..] == segs[1..];
    if |segs| > 1 {
      assert segs[0] + [Token(Semi, ";")] <= ts <==> segs[0][1..] + [Token(Semi, ";")] <= ts[1..];
      if segs[0] + [Token(Semi, ";")] <= ts {
        assert ts[|segs[0]| + 1..] == ts[1..][|segs[0][1..]| + 1..];
      }
    }
  }

  lemma NoCutStep(d: nat, ts: seq<Token>)
    requires ts != []
    ensures NoCut(d, ts) <==> !(ts[0].kind.Semi? && d == 0) && NoCut(Nest(d, ts[0].kind), ts[1..])
  {
  }

  lemma {:induction false} SegmentsAre(d: nat, ts: seq<Token>, segs: seq<seq<Token>>)
    requires segs != [] && PlainSemis(ts)
    ensures IsSegmentation(d, ts, segs) <==> segs == Segments(d, ts)
    decreases ts
  {
    if ts == [] {
    } else if ts[0].kind.Semi? && d == 0 {
      hide IsSegmentation;
      assert ts[0] == Token(Semi, ";");
      SegmentationAtCut(ts, segs);
      if |segs| > 1 { SegmentsAre(0, ts[1..], segs[1..]); }
    } else if segs[0] != [] && segs[0][0] == ts[0] {
      hide IsSegmentation;
      var inner := [segs[0][1..]] + segs[1..];
      SegmentationStep(d, ts, segs);
      SegmentsAre(Nest(d, ts[0].kind), ts[1..], inner);
      assert inner[1..] == segs[1..];
      assert [ts[0]] + segs[0][1..] == segs[0];
    }
  }

  /** The statements are what the declared segmentation says. */
  lemma StatementsAreSegments(raw: string, segs: seq<seq<Token>>)
    requires segs != [] && IsSegmentation(0, Lex(raw), segs)
    ensures Statements(raw) == Finish(segs)
  {
    LexSemis(raw);
    SegmentsAre(0, Lex(raw), segs);
  }

  // ----- Bytes are kept -----

  function Kept(segs: seq<seq<Token>>): seq<Token> {
    if segs == [] then [] else segs[0] + Kept(segs[1..])
  }

  lemma {:induction false} RenderConcat(a: seq<Token>, b: seq<Token>)
    ensures Render(a + b) == Render(a) + Render(b)
  {
    if a == [] {
      assert a + b == b;
    } else {
      assert (a + b)[1..] == a[1..] + b;
      RenderConcat(a[1..], b);
    }
  }

  /** The parts with the gaps before, between and behind them. */
  function Weave(gaps: seq<string>, parts: seq<string>): string
    requires |gaps| == |parts| + 1
    decreases parts
  {
    if parts == [] then gaps[0] else gaps[0] + parts[0] + Weave(gaps[1..], parts[1..])
  }

  lemma WeaveFront(x: string, gaps: seq<string>, parts: seq<string>)
    requires |gaps| == |parts| + 1
    ensures Weave([x + gaps[0]] + gaps[1..], parts) == x + Weave(gaps, parts)
  {
    assert ([x + gaps[0]] + gaps[1..])[1..] == gaps[1..];
    if parts != [] {
      Assoc(x, gaps[0], parts[0]);
      Assoc(x, gaps[0] + parts[0], Weave(gaps[1..], parts[1..]));
    }
  }

  lemma WeaveCons(w1: string, part: string, w2: string, gaps: seq<string>, parts: seq<string>)
    requires |gaps| == |parts| + 1
    ensures Weave([w1] + ([w2 + gaps[0]] + gaps[1..]), [part] + parts) == w1 + part + w2 + Weave(gaps, parts)
  {
    hide Weave;
    WeaveFront(w2, gaps, parts);
    WeaveStep(w1, [w2 + gaps[0]] + gaps[1..], part, parts);
    Assoc(w1 + part, w2, Weave(gaps, parts));
  }

  lemma WeaveStep(w1: string, gaps: seq<string>, part: string, parts: seq<string>)
    requires |gaps| == |parts| + 1
    ensures Weave([w1] + gaps, [part] + parts) == w1 + part + Weave(gaps, parts)
  {
    assert ([w1] + gaps)[1..] == gaps && ([part] + parts)[1..] == parts;
  }

  /** The tokens between the cuts are the statements with nothing but white space
      around them. */
  lemma {:induction false} FinishKeepsBytes(segs: seq<seq<Token>>) returns (gaps: seq<string>)
    ensures |gaps| == |Finish(segs)| + 1 && forall g | g in gaps :: Blank(g)
    ensures Render(Kept(segs)) == Weave(gaps, Finish(segs))
  {
    hide Blank, TrimSpace, Weave;
    if segs == [] {
      gaps := [""];
      NoGaps();
    } else {
      var text, rest := Render(segs[0]), Finish(segs[1..]);
      var g := FinishKeepsBytes(segs[1..]);
      RenderConcat(segs[0], Kept(segs[1..]));
      var w1, w2 := TrimShape(text);
      assert Blank(g[0]);
      if TrimSpace(text) == "" {
        BlankConcat(text, g[0]);
        gaps := [text + g[0]] + g[1..];
        WeaveFront(text, g, rest);
        assert Emit(text) + rest == rest;
      } else {
        BlankConcat(w2, g[0]);
        gaps := [w1] + ([w2 + g[0]] + g[1..]);
        WeaveCons(w1, TrimSpace(text), w2, g, rest);
      }
    }
  }

  lemma NoGaps()
    ensures Blank("") && Weave([""], []) == "" && Render([]) == ""
  {
  }

  /** The tokens that end no statement, in order. */
  function Uncut(d: nat, ts: seq<Token>): seq<Token> {
    if ts == [] then []
    else
      var n := |ts| - 1;
      Uncut(d, ts[..n]) + if IsCut(d, ts, n) then [] else [ts[n]]
  }

  lemma {:induction false} UncutFront(d: nat, ts: seq<Token>)
    requires ts != []
    ensures Uncut(d, ts) == (if IsCut(d, ts, 0) then [] else [ts[0]]) + Uncut(Nest(d, ts[0].kind), ts[1..])
    decreases |ts|
  {
    hide IsCut;
    var n, e, t := |ts| - 1, Nest(d, ts[0].kind), ts[1..];
    if n == 0 {
      assert ts[..0] == [] && t == [];
    } else {
      CutShift(d, ts, n);
      CutFirst(d, ts, n);
      UncutFront(d, ts[..n]);
      assert ts[..n][1..] == t[..n - 1];
      assert Uncut(e, t) == Uncut(e, t[..n - 1]) + if IsCut(e, t, n - 1) then [] else [t[n - 1]];
    }
  }

  lemma CutShift(d: nat, ts: seq<Token>, n: nat)
    requires 0 < n < |ts|
    ensures IsCut(d, ts, n) <==> IsCut(Nest(d, ts[0].kind), ts[1..], n - 1)
  {
    assert ts[..n][1..] == ts[1..][..n - 1];
  }

  lemma CutFirst(d: nat, ts: seq<Token>, n: nat)
    requires 0 < n <= |ts|
    ensures IsCut(d, ts[..n], 0) <==> IsCut(d, ts, 0)
    ensures IsCut(d, ts, 0) <==> ts[0].kind.Semi? && d == 0
  {
    assert ts[..n][..0] == ts[..0] == [];
  }

  lemma {:induction false} KeptIsUncut(d: nat, ts: seq<Token>)
    ensures Kept(Segments(d, ts)) == Uncut(d, ts)
    decreases ts
  {
    hide IsCut, Uncut;
    if ts == [] {
      NothingUncut(d);
    } else {
      var r := Segments(Nest(d, ts[0].kind), ts[1..]);
      KeptIsUncut(Nest(d, ts[0].kind), ts[1..]);
      UncutFront(d, ts);
      CutFirst(d, ts, |ts|);
      if ts[0].kind.Semi? && d == 0 {
        assert ([[]] + Segments(0, ts[1..]))[1..] == Segments(0, ts[1..]);
        assert [] + Kept(Segments(0, ts[1..])) == Kept(Segments(0, ts[1..]));
      } else {
        assert ([[ts[0]] + r[0]] + r[1..])[1..] == r[1..];
        assert ([ts[0]] + r[0]) + Kept(r[1..]) == [ts[0]] + (r[0] + Kept(r[1..]));
      }
    }
  }

  lemma NothingUncut(d: nat)
    ensures Kept(Segments(d, [])) == [] == Uncut(d, [])
  {
    var segs := Segments(d, []);
    assert segs == [[]] && segs[0] == [] && segs[1..] == [];
  }

  /** For every input: what is left of its tokens, each byte for byte and comments as
      newlines, when the semicolons that cut are taken out, is the statements in
      order with nothing but white space before, between and behind them. */
  lemma StatementsKeepBytes(raw: string) returns (gaps: seq<string>)
    ensures |gaps| == |Statements(raw)| + 1 && forall g | g in gaps :: Blank(g)
    ensures Render(Uncut(0, Lex(raw))) == Weave(gaps, Statements(raw))
  {
    hide Lex, Segments, Uncut, Kept, Finish, Weave, Blank;
    KeptIsUncut(0, Lex(raw));
    gaps := FinishKeepsBytes(Segments(0, Lex(raw)));
  }

  predicate SolidEnds(o: string) {
    o != "" && !Neutral(o[0]) && !Neutral(o[|o| - 1])
  }

  lemma InMiddle(w1: string, t: string, w2: string, x: string, o: string, y: string) returns (i: nat)
    requires w1 + t + w2 == x + o + y && SolidEnds(o)
    requires forall c | c in w1 || c in w2 :: Neutral(c)
    ensures i + |o| <= |t| && t[i..i + |o|] == o
  {
    hide Neutral;
    var text := x + o + y;
    assert text[|x|] == o[0] && text[|x| + |o| - 1] == o[|o| - 1];
    assert forall k | 0 <= k < |w1| :: text[k] == w1[k];
    assert forall k | |w1| + |t| <= k < |text| :: text[k] == w2[k - |w1| - |t|];
    i := |x| - |w1|;
    assert forall k | 0 <= k < |o| :: t[i + k] == text[|x| + k] == o[k];
  }

  lemma SolidNotEmpty(o: string)
    requires SolidEnds(o)
    ensures o != ""
  {
  }

  lemma RenderAround(seg: seq<Token>, k: nat)
    requires k < |seg|
    ensures Render(seg) == Render(seg[..k]) + seg[k].Out() + Render(seg[k + 1..])
  {
    assert seg == seg[..k] + seg[k..];
    RenderConcat(seg[..k], seg[k..]);
    assert seg[k..][1..] == seg[k + 1..];
    Assoc(Render(seg[..k]), seg[k].Out(), Render(seg[k + 1..]));
  }

  /** A token that starts and ends with solid bytes, as a closed string does, is
      found byte for byte in the statement of its segment. */
  lemma TokenKeptWhole(seg: seq<Token>, k: nat) returns (i: nat)
    requires k < |seg| && SolidEnds(seg[k].Out())
    ensures var stmt := TrimSpace(Render(seg)); var o := seg[k].Out();
            i + |o| <= |stmt| && stmt[i..i + |o|] == o && Emit(Render(seg)) == [stmt]
  {
    hide TrimSpace, Neutral, Render, SolidEnds;
    var o := seg[k].Out();
    RenderAround(seg, k);
    var text := Render(seg);
    var w1, w2 := TrimShape(text);
    BlankIsNeutral(w1);
    BlankIsNeutral(w2);
    i := InMiddle(w1, TrimSpace(text), w2, Render(seg[..k]), o, Render(seg[k + 1..]));
    SolidNotEmpty(o);
  }

  lemma ClosedLiteralIsSolid(s: string)
    requires s != "" && Next(s).kind.Literal?
    ensures SolidEnds(Next(s).Out())
  {
    LiteralEndsWithQuote(s[1..], s[0]);
  }

  lemma {:induction false} LiteralEndsWithQuote(s: string, q: char)
    requires LiteralCloses(s, q)
    ensures LiteralLen(s, q) > 0 && s[LiteralLen(s, q) - 1] == q
  {
    if s[0] != q {
      LiteralEndsWithQuote(s[1..], q);
    } else if |s| >= 2 && s[1] == q {
      LiteralEndsWithQuote(s[2..], q);
    }
  }

  // ----- A string the input leaves open -----

  lemma {:induction false} OpenStartsWithQuote(raw: string)
    ensures forall t | t in Lex(raw) :: t.kind.OpenLiteral? ==> t.src != "" && IsQuote(t.src[0])
  {
    if raw != "" {
      OpenStartsWithQuote(raw[|Next(raw).src|..]);
    }
  }

  function LastOf(segs: seq<seq<Token>>): seq<Token>
    requires segs != []
  {
    segs[|segs| - 1]
  }

  /** A token in front goes to the last segment only when that is the first. */
  lemma LastStep(d: nat, ts: seq<Token>)
    requires ts != []
    ensures var rest := Segments(Nest(d, ts[0].kind), ts[1..]);
            LastOf(Segments(d, ts)) == LastOf(rest) || LastOf(Segments(d, ts)) == [ts[0]] + LastOf(rest)
    ensures |ts| == 1 && !ts[0].kind.Semi? ==> LastOf(Segments(d, ts)) == [ts[0]]
  {
  }

  /** The last token, no semicolon, ends the last segment. */
  lemma {:induction false} LastInLast(d: nat, ts: seq<Token>)
    requires ts != [] && !ts[|ts| - 1].kind.Semi?
    ensures var seg := LastOf(Segments(d, ts)); seg != [] && seg[|seg| - 1] == ts[|ts| - 1]
    decreases ts
  {
    hide Segments, LastOf;
    LastStep(d, ts);
    if |ts| > 1 { LastInLast(Nest(d, ts[0].kind), ts[1..]); }
  }

  lemma {:induction false} FinishLast(segs: seq<seq<Token>>)
    requires segs != [] && TrimSpace(Render(segs[|segs| - 1])) != ""
    ensures Finish(segs) != [] && Finish(segs)[|Finish(segs)| - 1] == TrimSpace(Render(segs[|segs| - 1]))
  {
    hide TrimSpace;
    if |segs| > 1 {
      FinishLast(segs[1..]);
    } else {
      assert segs[1..] == [];
    }
  }

  /** Trimming a text that ends in a quote and what follows it takes at most white
      space off the end. */
  lemma TrimKeepsFromQuote(x: string, o: string) returns (cut: nat)
    requires o != "" && IsQuote(o[0])
    ensures cut < |o| && Blank(o[|o| - cut..])
    ensures exists n :: 0 <= n <= |x| && TrimSpace(x + o) == x[n..] + o[..|o| - cut]
  {
    hide TrimSpace, Blank, Neutral;
    var text := x + o;
    var w1, w2 := TrimShape(text);
    BlankIsNeutral(w1);
    BlankIsNeutral(w2);
    QuoteNotNeutral(o[0]);
    var t := TrimSpace(text);
    assert text[|x|] == o[0];
    assert forall k | 0 <= k < |w1| :: text[k] == w1[k];
    assert forall k | |w1| + |t| <= k < |text| :: text[k] == w2[k - |w1| - |t|];
    assert |w1| <= |x| && |w2| < |o|;
    cut := |w2|;
    assert w2 == text[|text| - cut..] == o[|o| - cut..];
    assert t == text[|w1|..|text| - cut] == x[|w1|..] + o[..|o| - cut];
  }

  lemma QuoteNotNeutral(c: char)
    requires IsQuote(c)
    ensures !Neutral(c)
  {
  }

  /** A string left open at the end of the input ends the last statement and loses at
      most white space at its end. */
  lemma OpenLiteralIsKept(raw: string) returns (front: string, cut: nat)
    requires Lex(raw) != [] && Lex(raw)[|Lex(raw)| - 1].kind.OpenLiteral?
    ensures var o := Lex(raw)[|Lex(raw)| - 1].src;
            && cut < |o| && Blank(o[|o| - cut..])
            && Statements(raw) != [] && Statements(raw)[|Statements(raw)| - 1] == front + o[..|o| - cut]
  {
    hide Lex, Segments, Finish, Render, TrimSpace, Blank;
    var ts := Lex(raw);
    var last := ts[|ts| - 1];
    var segs := Segments(0, ts);
    OpenStartsWithQuote(raw);
    LastInLast(0, ts);
    var seg := segs[|segs| - 1];
    var k := |seg| - 1;
    assert seg == seg[..k] + [last];
    RenderConcat(seg[..k], [last]);
    RenderOne(last);
    var x := Render(seg[..k]);
    cut := TrimKeepsFromQuote(x, last.src);
    var n :| 0 <= n <= |x| && TrimSpace(x + last.src) == x[n..] + last.src[..|last.src| - cut];
    front := x[n..];
    FinishLast(segs);
  }

  lemma RenderOne(t: Token)
    ensures Render([t]) == t.Out()
  {
    assert [t][1..] == [] && Render([]) == "";
  }
}
