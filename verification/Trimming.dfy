/** What strings.TrimSpace removes and leaves, said by the white-space characters
    themselves. */
module Trimming {
  import opened Text

  // ----- Trimming a longer text -----

  lemma BackSpaceStable(a: string, b: string)
    requires BackSpace(b) > 0
    ensures BackSpace(a + b) == BackSpace(b)
  {
    hide AsciiSpace, WideSpace2, WideSpace3;
  }

  /** White space at the back is recognised whatever stands in front. */
  lemma {:induction false} TrimRightSkipsBlank(x: string, w: string)
    requires TrimRight(w) == ""
    ensures TrimRight(x + w) == TrimRight(x)
  {
    hide BackSpace;
    if w == "" {
      assert x + w == x;
    } else {
      var n := BackSpace(w);
      BackSpaceStable(x, w);
      assert (x + w)[..|x + w| - n] == x + w[..|w| - n];
      TrimRightSkipsBlank(x, w[..|w| - n]);
    }
  }

  lemma CodeBack(s: string)
    requires IsSpaceCode(s)
    ensures BackSpace(s) == |s|
  {
  }

  lemma CodeTrimsRight(s: string)
    requires IsSpaceCode(s)
    ensures TrimRight(s) == ""
  {
    hide IsSpaceCode, BackSpace;
    CodeBack(s);
    assert s[..0] == "";
    NoBackSpace();
  }

  lemma NoBackSpace()
    ensures BackSpace("") == 0
  {
  }

  lemma {:induction false} BlankTrimsRight(w: string)
    requires Blank(w)
    ensures TrimRight(w) == ""
    decreases w
  {
    hide IsSpaceCode, FrontSpace, BackSpace, TrimRight, Blank;
    if w == "" {
      EmptyTrimsRight();
    } else {
      var n := FrontSpace(w);
      BlankStep(w);
      BlankTrimsRight(w[n..]);
      assert w == w[..n] + w[n..];
      TrimRightSkipsBlank(w[..n], w[n..]);
      CodeTrimsRight(w[..n]);
    }
  }

  lemma EmptyTrimsRight()
    ensures TrimRight("") == ""
  {
  }

  /** No white-space character starts in t and ends in white space behind it. */
  lemma FrontSpaceBeforeBlank(t: string, w: string, c: string)
    requires t != "" && FrontSpace(t) == 0 && FrontSpace(w) > 0
    ensures FrontSpace(t + w + c) == 0
  {
    var s := t + w + c;
    FirstByte(w);
    assert s[0] == t[0] && s[|t|] == w[0];
    if |t| >= 2 { assert s[1] == t[1]; }
    if |t| >= 3 { assert s[2] == t[2]; }
  }

  lemma FirstByte(w: string)
    requires FrontSpace(w) > 0
    ensures w[0] < '\U{80}' || w[0] >= '\U{C0}'
  {
  }

  lemma FrontZeroTrim(s: string)
    requires FrontSpace(s) == 0
    ensures TrimLeft(s) == s
  {
  }

  lemma NotBlank(s: string)
    requires TrimLeft(s) != ""
    ensures !Blank(s)
  {
  }

  lemma BackZeroTrim(s: string)
    requires BackSpace(s) == 0
    ensures TrimRight(s) == s
  {
  }

  lemma BlankFront(w: string)
    requires Blank(w) && w != ""
    ensures FrontSpace(w) > 0
  {
  }

  // ----- The characters -----

  /** The 25 white-space characters of Unicode, in UTF-8. */
  predicate SpaceCharacter(s: string) {
    || s in ["\t", "\n", "\U{0B}", "\U{0C}", "\r", " ", "\U{C2}\U{85}", "\U{C2}\U{A0}"]
    || s in ["\U{E1}\U{9A}\U{80}", "\U{E2}\U{81}\U{9F}", "\U{E3}\U{80}\U{80}"]
    || s in ["\U{E2}\U{80}\U{80}", "\U{E2}\U{80}\U{81}", "\U{E2}\U{80}\U{82}", "\U{E2}\U{80}\U{83}"]
    || s in ["\U{E2}\U{80}\U{84}", "\U{E2}\U{80}\U{85}", "\U{E2}\U{80}\U{86}", "\U{E2}\U{80}\U{87}"]
    || s in ["\U{E2}\U{80}\U{88}", "\U{E2}\U{80}\U{89}", "\U{E2}\U{80}\U{8A}"]
    || s in ["\U{E2}\U{80}\U{A8}", "\U{E2}\U{80}\U{A9}", "\U{E2}\U{80}\U{AF}"]
  }

  /** s is white-space characters, one after the other. */
  predicate White(s: string) {
    s == "" || exists n :: 0 < n <= |s| && SpaceCharacter(s[..n]) && White(s[n..])
  }

  /** s neither starts nor ends with a white-space character. */
  predicate Edged(s: string) {
    && (forall n | 0 < n <= |s| :: !SpaceCharacter(s[..n]))
    && (forall n | 0 <= n < |s| :: !SpaceCharacter(s[n..]))
  }

  lemma CodesAreCharacters(s: string)
    ensures IsSpaceCode(s) <==> SpaceCharacter(s)
  {
    if |s| == 1 {
      assert s == [s[0]];
    } else if |s| == 2 {
      assert s == [s[0], s[1]];
    } else if |s| == 3 {
      assert s == [s[0], s[1], s[2]];
    }
  }

  lemma {:induction false} BlankExactly(s: string)
    ensures Blank(s) <==> White(s)
    decreases s
  {
    hide IsSpaceCode, SpaceCharacter, FrontSpace, Blank;
    if s == "" {
      EmptyIsBlank();
    } else {
      if Blank(s) {
        var n := FrontSpace(s);
        BlankStep(s);
        CodesAreCharacters(s[..n]);
        BlankExactly(s[n..]);
      }
      if White(s) {
        var n :| 0 < n <= |s| && SpaceCharacter(s[..n]) && White(s[n..]);
        CodesAreCharacters(s[..n]);
        SpaceCodeIsBlank(s[..n]);
        BlankExactly(s[n..]);
        BlankConcat(s[..n], s[n..]);
        assert s == s[..n] + s[n..];
      }
    }
  }

  lemma CodeFront(s: string)
    requires IsSpaceCode(s)
    ensures FrontSpace(s) == |s| > 0
  {
  }

  lemma EdgedExactly(s: string)
    ensures Edged(s) <==> FrontSpace(s) == 0 && BackSpace(s) == 0
  {
    hide IsSpaceCode, SpaceCharacter, FrontSpace, BackSpace;
    SpaceFound(s);
    var f, b := FrontSpace(s), BackSpace(s);
    CodesAreCharacters(s[..f]);
    CodesAreCharacters(s[|s| - b..]);
    var front, back := s[..f], s[|s| - b..];
    assert front == s[..f] && back == s[|s| - b..];
    forall n | 0 < n <= |s|
      ensures SpaceCharacter(s[..n]) ==> FrontSpace(s) > 0
    {
      CharacterAtEdge(s, n);
    }
    forall n | 0 <= n < |s|
      ensures SpaceCharacter(s[n..]) ==> BackSpace(s) > 0
    {
      CharacterAtEdge(s, |s| - n);
    }
  }

  lemma CharacterAtEdge(s: string, n: nat)
    requires 0 < n <= |s|
    ensures SpaceCharacter(s[..n]) ==> FrontSpace(s) > 0
    ensures SpaceCharacter(s[|s| - n..]) ==> BackSpace(s) > 0
  {
    hide IsSpaceCode, SpaceCharacter, FrontSpace, BackSpace;
    var a, b := s[..n], s[|s| - n..];
    CodesAreCharacters(a);
    CodesAreCharacters(b);
    assert s == a + s[n..] && s == s[..|s| - n] + b;
    if IsSpaceCode(a) {
      CodeFront(a);
      FrontSpaceStable(a, s[n..]);
    }
    if IsSpaceCode(b) {
      CodeBack(b);
      BackSpaceStable(s[..|s| - n], b);
    }
  }

  /** Trimming leaves exactly what stands between white space and has none at its edges. */
  lemma TrimExactly(s: string, t: string)
    ensures TrimSpace(s) == t <==> Edged(t) && exists u, v :: White(u) && White(v) && s == u + t + v
  {
    hide White, Edged, TrimSpace, Blank, FrontSpace, BackSpace;
    EdgedExactly(t);
    if TrimSpace(s) == t {
      var u, v := TrimShape(s);
      BlankExactly(u);
      BlankExactly(v);
    }
    if Edged(t) && exists u, v :: White(u) && White(v) && s == u + t + v {
      var u, v :| White(u) && White(v) && s == u + t + v;
      BlankExactly(u);
      BlankExactly(v);
      TrimsTo(u, t, v);
    }
  }

  lemma TrimsTo(u: string, t: string, v: string)
    requires Blank(u) && Blank(v) && FrontSpace(t) == 0 && BackSpace(t) == 0
    ensures TrimSpace(u + t + v) == t
  {
    hide TrimLeft, TrimRight, Blank, FrontSpace, BackSpace;
    Assoc(u, t, v);
    TrimLeftSkipsBlank(u, t + v);
    BlankTrimsRight(v);
    TrimRightSkipsBlank(t, v);
    BackZeroTrim(t);
    if t == "" {
      assert t + v == v;
      BlankTrimsLeft(v);
      EmptyTrimsRight();
    } else if v == "" {
      assert t + v == t;
      FrontZeroTrim(t);
    } else {
      BlankFront(v);
      FrontSpaceBeforeBlank(t, v, "");
      assert t + v + "" == t + v;
      FrontZeroTrim(t + v);
    }
  }

  lemma BlankTrimsLeft(w: string)
    requires Blank(w)
    ensures TrimLeft(w) == ""
  {
  }

  lemma SolidFront(s: string)
    requires s != "" && !Neutral(s[0])
    ensures FrontSpace(s) == 0
  {
  }

  lemma SolidBack(s: string)
    requires s != "" && !Neutral(s[|s| - 1])
    ensures BackSpace(s) == 0
  {
  }
}
