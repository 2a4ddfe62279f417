/** What the splitter returns, it returns unchanged: every statement splits into
    itself, and the statements joined again split into the same list. */
module SplitterNormalForm {
  import Strings
  import opened Text
  import opened Splitter
  import SplitterTheorems
  import opened SplitterConcat

  // ----- Scanning what was rendered -----

  function NormToken(t: Token): Token {
    if t.kind.Comment? || t.kind.OpenComment? then Token(Plain, "\n") else t
  }

  function Norm(ts: seq<Token>): seq<Token> {
    if ts == [] then [] else [NormToken(ts[0])] + Norm(ts[1..])
  }

  /** The first k tokens of raw, where raw ends or a semicolon stands. */
  predicate StopsAt(raw: string, k: nat) {
    k <= |Lex(raw)| && (k == |Lex(raw)| || Lex(raw)[k].kind.Semi?)
  }

  function Front(raw: string, k: nat): string
    requires k <= |Lex(raw)|
  {
    Render(Lex(raw)[..k])
  }

  /** Rendering goes token by token. */
  lemma FrontStep(raw: string, k: nat)
    requires StopsAt(raw, k) && k > 0
    ensures raw != ""
    ensures var rest := raw[|Next(raw).src|..];
            && StopsAt(rest, k - 1)
            && Front(raw, k) == Next(raw).Out() + Front(rest, k - 1)
            && Norm(Lex(raw)[..k]) == [NormToken(Next(raw))] + Norm(Lex(rest)[..k - 1])
  {
    hide Next, NormToken;
    var rest := raw[|Next(raw).src|..];
    assert Lex(raw) == [Next(raw)] + Lex(rest);
    assert Lex(raw)[..k][1..] == Lex(rest)[..k - 1];
  }

  lemma FrontFirst(raw: string, k: nat)
    requires StopsAt(raw, k)
    ensures k == 0 ==> Front(raw, k) == "" && (raw == "" || raw[0] == ';')
    ensures k > 0 ==> raw != "" && Front(raw, k) != "" && Front(raw, k)[0] == if AtComment(raw) then '\n' else raw[0]
  {
    if k > 0 {
      FrontStep(raw, k);
    } else if raw != "" {
      assert Lex(raw)[0] == Next(raw);
    }
  }

  lemma WordToken(raw: string)
    requires raw != "" && IsIdentChar(raw[0])
    ensures Next(raw).src == [raw[0]] && Next(raw).Out() == [raw[0]]
  {
  }

  /** Two strings that start alike with an identifier byte, or with none. */
  lemma WordsAlike(a: string, b: string)
    requires a != "" && b != "" && IsIdentChar(a[0]) && a[0] == b[0]
    requires IdentRun(a[1..]) == IdentRun(b[1..]) && a[1..][..IdentRun(a[1..])] == b[1..][..IdentRun(a[1..])]
    ensures IdentRun(a) == IdentRun(b) && a[..IdentRun(a)] == b[..IdentRun(a)]
  {
    var n := IdentRun(a[1..]);
    assert a[..n + 1] == [a[0]] + a[1..][..n];
    assert b[..n + 1] == [b[0]] + b[1..][..n];
  }

  lemma {:induction false} FrontWord(raw: string, k: nat)
    requires StopsAt(raw, k)
    ensures IdentRun(Front(raw, k)) == IdentRun(raw)
    ensures Front(raw, k)[..IdentRun(raw)] == raw[..IdentRun(raw)]
    decreases raw
  {
    hide Front, Lex, Next;
    FrontFirst(raw, k);
    if k > 0 && IsIdentChar(raw[0]) {
      FrontStep(raw, k);
      WordToken(raw);
      FrontWord(raw[1..], k - 1);
      assert Front(raw, k)[1..] == Front(raw[1..], k - 1);
      WordsAlike(Front(raw, k), raw);
    }
  }

  lemma {:induction false} LiteralPrefix(s: string, q: char)
    requires LiteralCloses(s, q)
    ensures var n := LiteralLen(s, q);
            && LiteralCloses(s[..n], q) && LiteralLen(s[..n], q) == n
            && (n < |s| ==> s[n] != q)
  {
    var n := LiteralLen(s, q);
    if s[0] != q {
      LiteralPrefix(s[1..], q);
      assert s[..n][1..] == s[1..][..n - 1];
    } else if |s| >= 2 && s[1] == q {
      LiteralPrefix(s[2..], q);
      assert s[..n][2..] == s[2..][..n - 2];
    }
  }

  /** A closed string stays one token before anything but its own quote. */
  lemma LiteralAlone(raw: string, R: string)
    requires raw != "" && IsQuote(raw[0]) && LiteralCloses(raw[1..], raw[0])
    requires R == "" || R[0] != raw[0]
    ensures Next(Next(raw).src + R) == Next(raw)
  {
    hide LiteralCloses, LiteralLen, AtWord, AtComment;
    var q, n := raw[0], LiteralLen(raw[1..], raw[0]);
    var x := raw[1..][..n];
    LiteralPrefix(raw[1..], q);
    LiteralConcat(x, q, R);
    var s := Next(raw).src + R;
    assert Next(raw).src == [q] + x;
    assert s[1..] == x + R;
    assert s[..1 + n] == Next(raw).src;
  }

  lemma NextOfFront(raw: string, k: nat)
    requires StopsAt(raw, k) && k > 0
    ensures Front(raw, k) != "" && raw != "" && Next(Front(raw, k)) == NormToken(Next(raw))
  {
    hide Lex, Front, LiteralCloses, LiteralLen, IdentRun;
    FrontFirst(raw, k);
    FrontStep(raw, k);
    var t, R := Next(raw), Front(raw, k);
    var rest := raw[|t.src|..];
    FrontFirst(rest, k - 1);
    if IsQuote(raw[0]) {
      if LiteralCloses(raw[1..], raw[0]) {
        LiteralPrefix(raw[1..], raw[0]);
        LiteralAlone(raw, Front(rest, k - 1));
      } else {
        OpenTakesAll(raw);
        assert R == raw + "" == raw;
      }
    } else {
      FrontWord(raw, k);
      if AtComment(raw) {
        NoIdentRun(R);
        assert R[..1] == "\n";
      } else {
        assert R[..1] == raw[..1];
        assert !AtComment(R);
      }
    }
  }

  /** Scanning rendered tokens finds the same tokens, comments now a newline. */
  lemma {:induction false} LexOfFront(raw: string, k: nat)
    requires StopsAt(raw, k)
    ensures Lex(Front(raw, k)) == Norm(Lex(raw)[..k])
    decreases raw
  {
    hide Next, NormToken;
    FrontFirst(raw, k);
    if k > 0 {
      FrontStep(raw, k);
      NextOfFront(raw, k);
      NormTokenOut(Next(raw));
      var rest := raw[|Next(raw).src|..];
      LexOfFront(rest, k - 1);
      assert Front(raw, k)[|Next(raw).Out()|..] == Front(rest, k - 1);
    }
  }

  lemma NormTokenOut(t: Token)
    ensures NormToken(t).src == t.Out()
  {
  }

  // ----- Trimming changes no token -----

  predicate CommentFree(ts: seq<Token>) {
    forall t | t in ts :: !t.kind.Comment? && !t.kind.OpenComment?
  }

  lemma {:induction false} DepthConcat(d: nat, a: seq<Token>, b: seq<Token>)
    ensures Depth(d, a + b) == Depth(Depth(d, a), b)
    ensures NoCut(d, a + b) <==> NoCut(d, a) && NoCut(Depth(d, a), b)
    decreases a
  {
    if a == [] {
      assert a + b == b;
    } else {
      assert (a + b)[1..] == a[1..] + b;
      DepthConcat(Nest(d, a[0].kind), a[1..], b);
    }
  }

  lemma {:induction false} LexOfNeutral(w: string)
    requires forall c | c in w :: Neutral(c)
    ensures forall t | t in Lex(w) :: t.kind.Plain?
    ensures !EndsOpen(Lex(w))
  {
    if w != "" {
      assert w[0] in w;
      assert IdentRun(w) == 0;
      LexOfNeutral(w[1..]);
    }
  }

  lemma {:induction false} PlainKeepsDepth(d: nat, ts: seq<Token>)
    requires forall t | t in ts :: t.kind.Plain?
    ensures Depth(d, ts) == d && NoCut(d, ts)
    decreases ts
  {
    if ts != [] {
      assert ts[0] in ts;
      PlainKeepsDepth(d, ts[1..]);
    }
  }

  /** White space in front is tokens of its own. */
  lemma LexBehindBlank(w: string, x: string)
    requires Blank(w)
    ensures Lex(w + x) == Lex(w) + Lex(x)
    ensures forall d: nat :: Depth(d, Lex(w + x)) == Depth(d, Lex(x)) && (NoCut(d, Lex(w + x)) <==> NoCut(d, Lex(x)))
  {
    hide Lex, Blank, Neutral, NoCut, Depth, Inert, EndsOpen;
    BlankIsNeutral(w);
    LexOfNeutral(w);
    if w != "" { NeutralIsInert(w[|w| - 1]); }
    LexConcat(w, x);
    forall d: nat
      ensures Depth(d, Lex(w + x)) == Depth(d, Lex(x)) && (NoCut(d, Lex(w + x)) <==> NoCut(d, Lex(x)))
    {
      PlainKeepsDepth(d, Lex(w));
      DepthConcat(d, Lex(w), Lex(x));
    }
  }

  lemma {:induction false} OpenLiteralGrows(s: string, q: char, w: string)
    requires !LiteralCloses(s, q) && q !in w
    ensures !LiteralCloses(s + w, q)
    decreases |s| + |w|
  {
    if s == "" {
      assert s + w == w;
      if w != "" {
        assert w[0] in w;
        OpenLiteralGrows("", q, w[1..]);
        assert "" + w[1..] == w[1..];
      }
    } else if s[0] != q {
      assert (s + w)[1..] == s[1..] + w;
      OpenLiteralGrows(s[1..], q, w);
    } else {
      assert (s + w)[2..] == s[2..] + w;
      OpenLiteralGrows(s[2..], q, w);
    }
  }

  /** White space behind an open string makes that string longer. */
  lemma {:induction false} LexBeforeBlankOpen(s: string, w: string)
    requires s != "" && EndsOpen(Lex(s)) && (forall c | c in w :: Neutral(c)) && w != ""
    requires CommentFree(Lex(s + w))
    ensures var ts := Lex(s);
            && ts[|ts| - 1].kind.OpenLiteral?
            && Lex(s + w) == ts[..|ts| - 1] + [Token(OpenLiteral, ts[|ts| - 1].src + w)]
    decreases s
  {
    hide Next, Neutral;
    var t := Next(s);
    var ts := Lex(s);
    if t.src == s {
      assert ts == [t];
      LastOpen(s, w);
      assert Lex(s + w)[0] == Next(s + w);
      assert (s + w)[|s + w|..] == "";
    } else {
      OpenTakesAll(s);
      assert w[0] in w;
      NeutralIsInert(w[0]);
      NextConcat(s, w);
      var rest := s[|t.src|..];
      assert (s + w)[|t.src|..] == rest + w;
      assert Lex(s + w) == [t] + Lex(rest + w);
      assert ts == [t] + Lex(rest);
      assert CommentFree(Lex(rest + w)) by {
        assert forall u | u in Lex(rest + w) :: u in Lex(s + w);
      }
      LexBeforeBlankOpen(rest, w);
    }
  }

  lemma QuoteIsSolid(q: char)
    requires IsQuote(q)
    ensures !Neutral(q)
  {
  }

  lemma OpenKinds(s: string)
    requires s != ""
    ensures Next(s).kind.OpenLiteral? <==> IsQuote(s[0]) && !LiteralCloses(s[1..], s[0])
    ensures Next(s).kind.Comment? || Next(s).kind.OpenComment? <==> AtComment(s)
  {
  }

  lemma OpenLiteralAll(s: string)
    requires s != "" && IsQuote(s[0]) && !LiteralCloses(s[1..], s[0])
    ensures Next(s) == Token(OpenLiteral, s)
  {
    OpenLiteralLen(s[1..], s[0]);
    assert s[..|s|] == s;
  }

  lemma LastOpen(s: string, w: string)
    requires s != "" && Next(s).src == s && (Next(s).kind.OpenLiteral? || Next(s).kind.OpenComment?)
    requires forall c | c in w :: Neutral(c)
    ensures Next(s).kind.OpenLiteral? ==> Next(s + w) == Token(OpenLiteral, s + w)
    ensures Next(s).kind.OpenComment? ==> Next(s + w).kind.Comment? || Next(s + w).kind.OpenComment?
  {
    hide Next, LiteralCloses, Neutral;
    OpenKinds(s);
    OpenKinds(s + w);
    if Next(s).kind.OpenLiteral? {
      QuoteIsSolid(s[0]);
      assert (s + w)[1..] == s[1..] + w;
      OpenLiteralGrows(s[1..], s[0], w);
      OpenLiteralAll(s + w);
    }
  }

  /** White space behind s adds no cut, no count and no closing. */
  lemma LexBeforeBlank(s: string, w: string)
    requires s != "" && Blank(w) && CommentFree(Lex(s + w))
    ensures CommentFree(Lex(s))
    ensures forall d: nat :: Depth(d, Lex(s)) == Depth(d, Lex(s + w)) && (NoCut(d, Lex(s + w)) ==> NoCut(d, Lex(s)))
    ensures EndsOpen(Lex(s)) ==> EndsOpen(Lex(s + w))
  {
    hide Lex, Blank, Neutral, NoCut, Depth, Inert;
    BlankIsNeutral(w);
    if w == "" {
      assert s + w == s;
    } else if EndsOpen(Lex(s)) {
      LexBeforeBlankOpen(s, w);
      var ts := Lex(s);
      var h, o, o' := ts[..|ts| - 1], ts[|ts| - 1], Token(OpenLiteral, ts[|ts| - 1].src + w);
      assert ts == h + [o];
      forall d: nat
        ensures Depth(d, Lex(s)) == Depth(d, Lex(s + w)) && (NoCut(d, Lex(s + w)) ==> NoCut(d, Lex(s)))
      {
        DepthConcat(d, h, [o]);
        DepthConcat(d, h, [o']);
        OneToken(Depth(d, h), o);
        OneToken(Depth(d, h), o');
      }
      assert forall t | t in h :: t in Lex(s + w);
    } else {
      LexOfNeutral(w);
      NeutralIsInert(w[0]);
      LexConcat(s, w);
      forall d: nat
        ensures Depth(d, Lex(s)) == Depth(d, Lex(s + w)) && (NoCut(d, Lex(s + w)) ==> NoCut(d, Lex(s)))
      {
        PlainKeepsDepth(Depth(d, Lex(s)), Lex(w));
        DepthConcat(d, Lex(s), Lex(w));
      }
    }
  }

  lemma OneToken(d: nat, t: Token)
    requires t.kind.OpenLiteral?
    ensures Depth(d, [t]) == d && NoCut(d, [t])
  {
  }

  // ----- Normal statements -----

  /** A statement in normal form: trimmed, without comments, and no cut inside. */
  predicate Normal(s: string) {
    s != "" && TrimSpace(s) == s && CommentFree(Lex(s)) && NoCut(0, Lex(s))
  }

  /** A normal statement that a semicolon can end. */
  predicate Complete(s: string) {
    Normal(s) && Depth(0, Lex(s)) == 0 && !EndsOpen(Lex(s))
  }

  lemma {:induction false} RenderIsSource(ts: seq<Token>)
    requires CommentFree(ts)
    ensures Render(ts) == Source(ts)
  {
    if ts != [] {
      assert ts[0] in ts;
      RenderIsSource(ts[1..]);
    }
  }

  lemma {:induction false} NoCutOneSegment(d: nat, ts: seq<Token>)
    requires NoCut(d, ts)
    ensures Segments(d, ts) == [ts]
    decreases ts
  {
    if ts != [] {
      NoCutOneSegment(Nest(d, ts[0].kind), ts[1..]);
      assert [ts[0]] + ts[1..] == ts;
    }
  }

  lemma FinishOne(seg: seq<Token>)
    ensures Finish([seg]) == Emit(Render(seg))
  {
    hide Emit;
    assert [seg][1..] == [];
  }

  /** A normal statement splits into itself. */
  lemma NormalSplits(s: string)
    requires Normal(s)
    ensures Statements(s) == [s]
  {
    hide Lex, TrimSpace, NoCut, Segments;
    NoCutOneSegment(0, Lex(s));
    RenderIsSource(Lex(s));
    SplitterTheorems.LexIsLossless(s);
    FinishOne(Lex(s));
  }

  lemma {:induction false} NormKeeps(d: nat, ts: seq<Token>)
    ensures CommentFree(Norm(ts)) && Depth(d, Norm(ts)) == Depth(d, ts) && (NoCut(d, Norm(ts)) <==> NoCut(d, ts))
    ensures EndsOpen(Norm(ts)) ==> EndsOpen(ts)
    decreases ts
  {
    if ts != [] {
      NormKeeps(Nest(d, ts[0].kind), ts[1..]);
    }
  }

  lemma TrimmedIsNormal(r: string)
    requires CommentFree(Lex(r)) && NoCut(0, Lex(r)) && !Blank(r)
    ensures Normal(TrimSpace(r))
    ensures Depth(0, Lex(r)) == 0 && !EndsOpen(Lex(r)) ==> Complete(TrimSpace(r))
  {
    hide Lex, TrimSpace, NoCut, Depth, Blank;
    var w1, w2 := TrimShape(r);
    TrimIdempotent(r);
    var s := TrimSpace(r);
    Assoc(w1, s, w2);
    LexBehindBlank(w1, s + w2);
    assert CommentFree(Lex(s + w2)) by {
      assert forall t | t in Lex(s + w2) :: t in Lex(w1) + Lex(s + w2);
    }
    LexBeforeBlank(s, w2);
    if EndsOpen(Lex(s + w2)) {
      assert Lex(r)[|Lex(r)| - 1] == Lex(s + w2)[|Lex(s + w2)| - 1];
    }
  }

  /** The first k tokens of raw, up to a cut or the end, make a normal statement. */
  lemma FrontIsNormal(raw: string, k: nat)
    requires StopsAt(raw, k) && NoCut(0, Lex(raw)[..k]) && !Blank(Front(raw, k))
    ensures Normal(TrimSpace(Front(raw, k)))
    ensures k < |Lex(raw)| && Depth(0, Lex(raw)[..k]) == 0 ==> Complete(TrimSpace(Front(raw, k)))
  {
    hide Lex, TrimSpace, NoCut, Depth, Blank, Norm;
    var ts := Lex(raw)[..k];
    LexOfFront(raw, k);
    NormKeeps(0, ts);
    if k < |Lex(raw)| { OnlyLastOpen(raw, k); }
    TrimmedIsNormal(Front(raw, k));
  }

  lemma {:induction false} OnlyLastOpen(raw: string, k: nat)
    requires k < |Lex(raw)|
    ensures !EndsOpen(Lex(raw)[..k])
    decreases raw
  {
    hide Next;
    if k > 0 {
      var rest := raw[|Next(raw).src|..];
      OnlyLastOpen(rest, k - 1);
      if k == 1 { OpenTakesAll(raw); }
      assert Lex(raw)[..k][1..] == Lex(rest)[..k - 1];
    }
  }

  // ----- All statements of an input -----

  function FirstCut(d: nat, ts: seq<Token>): (k: nat)
    ensures k <= |ts|
    decreases ts
  {
    if ts == [] || (ts[0].kind.Semi? && d == 0) then 0 else 1 + FirstCut(Nest(d, ts[0].kind), ts[1..])
  }

  lemma {:induction false} FirstCutShape(d: nat, ts: seq<Token>)
    ensures var k := FirstCut(d, ts);
            && NoCut(d, ts[..k])
            && (k < |ts| ==> ts[k].kind.Semi? && Depth(d, ts[..k]) == 0)
            && Segments(d, ts) == if k < |ts| then [ts[..k]] + Segments(0, ts[k + 1..]) else [ts]
    decreases ts
  {
    var k := FirstCut(d, ts);
    if ts == [] {
    } else if ts[0].kind.Semi? && d == 0 {
      assert ts[..0] == [];
    } else {
      FirstCutShape(Nest(d, ts[0].kind), ts[1..]);
      assert ts[..k][1..] == ts[1..][..k - 1];
      assert [ts[0]] + ts[1..][..k - 1] == ts[..k];
      assert [ts[0]] + ts[1..] == ts;
      assert k < |ts| ==> ts[k + 1..] == ts[1..][k..];
    }
  }

  lemma {:induction false} LexSuffix(raw: string, k: nat) returns (rest: string)
    requires k <= |Lex(raw)|
    ensures Lex(raw)[k..] == Lex(rest) && |rest| <= |raw|
    ensures k > 0 ==> |rest| < |raw|
    decreases raw
  {
    hide Next;
    if k == 0 {
      rest := raw;
    } else {
      rest := LexSuffix(raw[|Next(raw).src|..], k - 1);
    }
  }

  /** Every statement but the last can be ended by a semicolon. */
  predicate NormalList(ss: seq<string>) {
    && (forall s | s in ss :: Normal(s))
    && (forall i | 0 <= i < |ss| - 1 :: Complete(ss[i]))
  }

  lemma NormalListCons(text: string, ss: seq<string>)
    requires NormalList(ss) && (!Blank(text) ==> Complete(TrimSpace(text)))
    ensures NormalList(Emit(text) + ss)
  {
    hide Normal, Complete, TrimSpace, Blank;
    var w1, w2 := TrimShape(text);
    CompleteIsNormal(TrimSpace(text));
  }

  lemma NormalListOne(text: string)
    requires !Blank(text) ==> Normal(TrimSpace(text))
    ensures NormalList(Emit(text))
  {
    hide Normal, Complete, TrimSpace, Blank;
    var w1, w2 := TrimShape(text);
  }

  lemma {:induction false} StatementsNormal(raw: string)
    ensures NormalList(Statements(raw))
    decreases |raw|
  {
    hide *;
    var ts := Lex(raw);
    var k := FirstCut(0, ts);
    FirstCutShape(0, ts);
    FirstCutStops(raw);
    var text := Front(raw, k);
    if !Blank(text) {
      FrontIsNormal(raw, k);
    }
    if k < |ts| {
      var rest := LexSuffix(raw, k + 1);
      StatementsNormal(rest);
      StatementsStep(raw, rest);
      NormalListCons(text, Statements(rest));
    } else {
      StatementsLast(raw);
      NormalListOne(text);
    }
  }

  lemma FirstCutStops(raw: string)
    ensures var k := FirstCut(0, Lex(raw)); StopsAt(raw, k) && NoCut(0, Lex(raw)[..k])
  {
    FirstCutShape(0, Lex(raw));
  }

  lemma StatementsStep(raw: string, rest: string)
    requires FirstCut(0, Lex(raw)) < |Lex(raw)| && Lex(raw)[FirstCut(0, Lex(raw)) + 1..] == Lex(rest)
    ensures Statements(raw) == Emit(Front(raw, FirstCut(0, Lex(raw)))) + Statements(rest)
  {
    hide Emit, Lex, Render, FirstCut;
    FirstCutShape(0, Lex(raw));
    assert Segments(0, Lex(raw))[1..] == Segments(0, Lex(rest));
  }

  lemma StatementsLast(raw: string)
    requires FirstCut(0, Lex(raw)) == |Lex(raw)|
    ensures Statements(raw) == Emit(Front(raw, |Lex(raw)|))
  {
    hide Emit, Lex, Render, FirstCut;
    FirstCutShape(0, Lex(raw));
    assert Lex(raw)[..|Lex(raw)|] == Lex(raw);
    FinishOne(Lex(raw));
  }

  lemma CompleteIsNormal(s: string)
    ensures Complete(s) ==> Normal(s)
  {
  }

  /** Every statement the splitter returns, it returns unchanged when split again. */
  lemma StatementSplitsIntoItself(raw: string, s: string)
    requires s in Statements(raw)
    ensures Statements(s) == [s]
  {
    hide Statements, Normal;
    StatementsNormal(raw);
    NormalSplits(s);
  }

  // ----- Joining and splitting again -----

  lemma SemiNewline()
    ensures Lex(";\n") == [Token(Semi, ";"), Token(Plain, "\n")]
  {
    var s := ";\n";
    assert s[..1] == ";" && s[1..] == "\n";
    assert Next(s) == Token(Semi, ";");
    assert Next("\n") == Token(Plain, "\n") by {
      assert "\n"[..1] == "\n" && IdentRun("\n") == 0;
    }
    assert Lex("\n") == [Token(Plain, "\n")] + Lex("");
  }

  /** A complete statement and its semicolon end at a closed cut. */
  lemma CompleteThenSemi(s: string)
    requires Complete(s)
    ensures Closed(s + ";\n") && Statements(s + ";\n") == [s]
  {
    hide Lex, TrimSpace, NoCut, Segments, CommentFree;
    NormalSplits(s);
    var semi, nl := Token(Semi, ";"), Token(Plain, "\n");
    SemiNewline();
    LexConcat(s, ";\n");
    SegmentsConcat(0, Lex(s), [semi, nl]);
    NoCutOneSegment(0, Lex(s));
    SemiSegments(semi, nl);
    DepthConcat(0, Lex(s), [semi, nl]);
    assert Splice([Lex(s)], [[], [nl]]) == [Lex(s), [nl]] by {
      assert Lex(s) + [] == Lex(s);
      assert [Lex(s)][..0] == [];
    }
    assert Finish([Lex(s)]) == Emit(Render(Lex(s))) + [];
    assert Finish([Lex(s), [nl]]) == Emit(Render(Lex(s))) + Finish([[nl]]);
    NewlineBlank(nl);
  }

  lemma SemiSegments(semi: Token, nl: Token)
    requires semi.kind.Semi? && nl.kind.Plain?
    ensures Segments(0, [semi, nl]) == [[], [nl]] && Depth(0, [semi, nl]) == 0
  {
    assert [semi, nl][1..] == [nl] && [nl][1..] == [];
    assert Segments(0, []) == [[]];
    assert [nl] + [] == [nl];
    assert Segments(0, [nl]) == [[nl]];
    assert Depth(0, [nl]) == Depth(0, []) == 0;
  }

  lemma NewlineBlank(nl: Token)
    requires nl == Token(Plain, "\n")
    ensures Blank(Render([nl])) && Finish([[nl]]) == []
  {
    assert Render([nl]) == "\n" + Render([]) == "\n";
    assert "\n"[..1] == "\n" && "\n"[1..] == "";
    assert FrontSpace("\n") == 1;
    assert Finish([[nl]]) == Emit("\n") + [];
  }

  lemma {:induction false} JoinSplits(ss: seq<string>)
    requires NormalList(ss)
    ensures Statements(Strings.Join(ss, ";\n")) == ss
  {
    hide Statements, Normal, Complete, Closed;
    if ss == [] {
      NothingToSplit();
    } else {
      assert ss[0] in ss;
      if |ss| == 1 {
        NormalSplits(ss[0]);
      } else {
        JoinSplits(ss[1..]);
        CompleteThenSemi(ss[0]);
        SplitAtClosedCut(ss[0] + ";\n", Strings.Join(ss[1..], ";\n"));
      }
    }
  }

  lemma NothingToSplit()
    ensures Statements("") == []
  {
    assert Finish([[]]) == Emit(Render([])) + Finish([[]][1..]);
  }

  /** Splitting the joined statements of any input gives the same list back. */
  lemma SplitOfJoin(raw: string)
    ensures Statements(Strings.Join(Statements(raw), ";\n")) == Statements(raw)
  {
    hide Statements, NormalList;
    StatementsNormal(raw);
    JoinSplits(Statements(raw));
  }
}
