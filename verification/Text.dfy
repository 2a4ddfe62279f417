/** Byte strings and the white space that Go's strings.TrimSpace removes.
    A string is a sequence of bytes: every char stands for one byte. */
module Text {

  predicate AsciiSpace(c: char) {
    c == ' ' || c == '\t' || c == '\n' || c == '\U{0B}' || c == '\U{0C}' || c == '\r'
  }

  /** U+0085 and U+00A0 in UTF-8. */
  predicate WideSpace2(a: char, b: char) {
    a == '\U{C2}' && (b == '\U{85}' || b == '\U{A0}')
  }

  /** U+1680, U+2000 to U+200A, U+2028, U+2029, U+202F, U+205F and U+3000 in UTF-8. */
  predicate WideSpace3(a: char, b: char, c: char) {
    || (a == '\U{E1}' && b == '\U{9A}' && c == '\U{80}')
    || (a == '\U{E2}' && b == '\U{80}'
        && ('\U{80}' <= c <= '\U{8A}' || c == '\U{A8}' || c == '\U{A9}' || c == '\U{AF}'))
    || (a == '\U{E2}' && b == '\U{81}' && c == '\U{9F}')
    || (a == '\U{E3}' && b == '\U{80}' && c == '\U{80}')
  }

  predicate IsSpaceCode(s: string) {
    || (|s| == 1 && AsciiSpace(s[0]))
    || (|s| == 2 && WideSpace2(s[0], s[1]))
    || (|s| == 3 && WideSpace3(s[0], s[1], s[2]))
  }

  /** Length of the white-space character encoded at the front of s, 0 if there is none. */
  function FrontSpace(s: string): (n: nat)
    ensures n <= |s|
  {
    if |s| >= 1 && AsciiSpace(s[0]) then 1
    else if |s| >= 2 && WideSpace2(s[0], s[1]) then 2
    else if |s| >= 3 && WideSpace3(s[0], s[1], s[2]) then 3
    else 0
  }

  /** Length of the white-space character encoded at the back of s, 0 if there is none. */
  function BackSpace(s: string): (n: nat)
    ensures n <= |s|
  {
    var n := |s|;
    if n >= 1 && AsciiSpace(s[n - 1]) then 1
    else if n >= 2 && WideSpace2(s[n - 2], s[n - 1]) then 2
    else if n >= 3 && WideSpace3(s[n - 3], s[n - 2], s[n - 1]) then 3
    else 0
  }

  lemma SpaceFound(s: string)
    ensures FrontSpace(s) > 0 ==> IsSpaceCode(s[..FrontSpace(s)])
    ensures BackSpace(s) > 0 ==> IsSpaceCode(s[|s| - BackSpace(s)..])
  {
    hide AsciiSpace, WideSpace2, WideSpace3;
  }

  function TrimLeft(s: string): string {
    if FrontSpace(s) == 0 then s else TrimLeft(s[FrontSpace(s)..])
  }

  function TrimRight(s: string): string {
    if BackSpace(s) == 0 then s else TrimRight(s[..|s| - BackSpace(s)])
  }

  function TrimSpace(s: string): string { TrimRight(TrimLeft(s)) }

  /** s consists of white-space characters only. */
  predicate Blank(s: string) { TrimLeft(s) == "" }

  lemma Assoc(a: string, b: string, c: string)
    ensures a + (b + c) == (a + b) + c
  {
  }

  /** A byte that no scanner rule looks at. */
  predicate Neutral(c: char) {
    AsciiSpace(c) || c >= '\U{80}'
  }

  lemma SpaceCodeIsNeutral(s: string)
    requires IsSpaceCode(s)
    ensures forall c | c in s :: Neutral(c)
  {
  }

  lemma BlankStep(s: string)
    requires Blank(s) && s != ""
    ensures FrontSpace(s) > 0 && IsSpaceCode(s[..FrontSpace(s)]) && Blank(s[FrontSpace(s)..])
  {
    hide FrontSpace, IsSpaceCode;
    SpaceFound(s);
  }

  lemma InParts(s: string, n: nat, c: char)
    requires n <= |s| && c in s
    ensures c in s[..n] || c in s[n..]
  {
    assert s == s[..n] + s[n..];
  }

  lemma {:induction false} BlankIsNeutral(s: string)
    requires Blank(s)
    ensures forall c | c in s :: Neutral(c)
  {
    hide *;
    if s != "" {
      var n := FrontSpace(s);
      BlankStep(s);
      SpaceCodeIsNeutral(s[..n]);
      BlankIsNeutral(s[n..]);
      forall c | c in s ensures Neutral(c) { InParts(s, n, c); }
    }
  }

  /** A white-space character in front is recognised whatever follows it. */
  lemma FrontSpaceStable(a: string, b: string)
    requires FrontSpace(a) > 0
    ensures FrontSpace(a + b) == FrontSpace(a)
  {
  }

  lemma {:induction false} TrimLeftSkipsBlank(w: string, x: string)
    requires Blank(w)
    ensures TrimLeft(w + x) == TrimLeft(x)
  {
    if w == "" {
      assert w + x == x;
    } else {
      var n := FrontSpace(w);
      FrontSpaceStable(w, x);
      assert (w + x)[n..] == w[n..] + x;
      TrimLeftSkipsBlank(w[n..], x);
    }
  }

  lemma BlankConcat(a: string, b: string)
    requires Blank(a)
    ensures Blank(a + b) <==> Blank(b)
  {
    TrimLeftSkipsBlank(a, b);
  }

  lemma SpaceCodeIsBlank(s: string)
    requires IsSpaceCode(s)
    ensures Blank(s)
  {
    assert FrontSpace(s) == |s|;
    assert s[|s|..] == "";
  }

  lemma EmptyIsBlank()
    ensures Blank("")
  {
  }

  lemma {:induction false} TrimLeftShape(s: string) returns (w: string)
    ensures Blank(w) && s == w + TrimLeft(s)
    ensures FrontSpace(TrimLeft(s)) == 0
  {
    hide FrontSpace, BackSpace, IsSpaceCode, Blank;
    var n := FrontSpace(s);
    if n == 0 {
      w := "";
      EmptyIsBlank();
    } else {
      var v := TrimLeftShape(s[n..]);
      SpaceFound(s);
      SpaceCodeIsBlank(s[..n]);
      BlankConcat(s[..n], v);
      w := s[..n] + v;
      Assoc(s[..n], v, TrimLeft(s[n..]));
    }
  }

  lemma {:induction false} TrimRightShape(s: string) returns (w: string)
    ensures Blank(w) && s == TrimRight(s) + w
    ensures BackSpace(TrimRight(s)) == 0
  {
    hide FrontSpace, BackSpace, IsSpaceCode;
    var n := BackSpace(s);
    if n == 0 {
      w := "";
    } else {
      var h, t := s[..|s| - n], s[|s| - n..];
      var v := TrimRightShape(h);
      SpaceFound(s);
      SpaceCodeIsBlank(t);
      BlankConcat(v, t);
      w := v + t;
      Assoc(TrimRight(h), v, t);
    }
  }

  /** TrimSpace removes white space at both ends and nothing else. */
  lemma TrimShape(s: string) returns (w1: string, w2: string)
    ensures Blank(w1) && Blank(w2)
    ensures s == w1 + TrimSpace(s) + w2
    ensures FrontSpace(TrimSpace(s)) == 0 && BackSpace(TrimSpace(s)) == 0
    ensures TrimSpace(s) == "" <==> Blank(s)
  {
    hide FrontSpace, BackSpace, IsSpaceCode;
    w1 := TrimLeftShape(s);
    var t := TrimLeft(s);
    w2 := TrimRightShape(t);
    var r := TrimRight(t);
    Assoc(w1, r, w2);
    if FrontSpace(r) > 0 {
      FrontSpaceStable(r, w2);
    }
    if r == "" {
      assert t == w2;
    }
  }

  lemma TrimOfTrimmed(s: string)
    requires FrontSpace(s) == 0 && BackSpace(s) == 0
    ensures TrimSpace(s) == s
  {
  }

  lemma TrimIdempotent(s: string)
    ensures TrimSpace(TrimSpace(s)) == TrimSpace(s)
  {
    var w1, w2 := TrimShape(s);
    TrimOfTrimmed(TrimSpace(s));
  }
}
