/** Migration file names: how they are read (migrator.go, cmd/localitas/main.go), how
    `migrate new` picks the next one, and in which order their versions sort. */
module Filenames {
  import opened Arithmetic
  import opened Options
  import opened Order

  predicate Digits(s: string) {
    forall i | 0 <= i < |s| :: '0' <= s[i] <= '9'
  }

  /** A date and a time of day, YYYYMMDD-HHMMSS. */
  predicate Stamp(s: string) {
    |s| == 15 && Digits(s[..8]) && s[8] == '-' && Digits(s[9..])
  }

  /** YYYYMMDD-HHMMSS-NNN */
  predicate StampedVersion(s: string) {
    |s| == 19 && Stamp(s[..15]) && s[15] == '-' && Digits(s[16..])
  }

  predicate PlainVersion(s: string) {
    s != "" && Digits(s)
  }

  /** What .+ matches. */
  predicate FileTitle(s: string) {
    s != "" && '\n' !in s
  }

  predicate EndsInSql(s: string) {
    |s| >= 4 && s[|s| - 4..] == ".sql"
  }

  /** ^(\d{8})-(\d{6})-(\d{3})-(.+)\.sql$ */
  predicate StampedFile(f: string) {
    |f| >= 24 && StampedVersion(f[..19]) && f[19] == '-' && EndsInSql(f) && FileTitle(f[20..|f| - 4])
  }

  /** The digits at the front. */
  function DigitRun(s: string): (n: nat)
    ensures n <= |s|
  {
    if s != "" && '0' <= s[0] <= '9' then 1 + DigitRun(s[1..]) else 0
  }

  /** ^(\d+)_(.+)\.sql$ */
  predicate PlainFile(f: string) {
    var n := DigitRun(f);
    0 < n && n + 5 <= |f| && f[n] == '_' && EndsInSql(f) && FileTitle(f[n + 1..|f| - 4])
  }

  function Parse(f: string): Option<(string, string)> {
    if StampedFile(f) then Some((f[..8] + "-" + f[9..15] + "-" + f[16..19], f[20..|f| - 4]))
    else if PlainFile(f) then Some((f[..DigitRun(f)], f[DigitRun(f) + 1..|f| - 4]))
    else None
  }

  // ----- Reading and printing -----

  predicate Version(v: string) {
    StampedVersion(v) || PlainVersion(v)
  }

  function Print(v: string, title: string): string {
    v + (if StampedVersion(v) then "-" else "_") + title + ".sql"
  }

  lemma VersionIsFront(f: string)
    requires StampedFile(f)
    ensures f[..8] + "-" + f[9..15] + "-" + f[16..19] == f[..19]
  {
    var v := f[..19];
    assert v[..15][8] == '-' && v[15] == '-';
    assert f[..19] == f[..8] + [f[8]] + f[9..15] + [f[15]] + f[16..19];
  }

  lemma {:induction false} RunOfDigits(v: string, rest: string)
    requires Digits(v) && (rest == "" || !('0' <= rest[0] <= '9'))
    ensures DigitRun(v + rest) == |v|
  {
    if v == "" {
      assert v + rest == rest;
    } else {
      assert (v + rest)[1..] == v[1..] + rest;
      RunOfDigits(v[1..], rest);
    }
  }

  lemma {:induction false} RunIsDigits(f: string)
    ensures Digits(f[..DigitRun(f)])
  {
    if DigitRun(f) > 0 {
      RunIsDigits(f[1..]);
      assert f[..DigitRun(f)] == [f[0]] + f[1..][..DigitRun(f[1..])];
    }
  }

  lemma StampedPrint(v: string, title: string)
    requires StampedVersion(v) && FileTitle(title)
    ensures Parse(Print(v, title)) == Some((v, title))
  {
    hide StampedVersion, FileTitle;
    var f := Print(v, title);
    StampedLength(v);
    TitleLength(title);
    assert f[..19] == v && f[19] == '-' && f[20..|f| - 4] == title && f[|f| - 4..] == ".sql";
    VersionIsFront(f);
  }

  lemma StampedLength(v: string)
    requires StampedVersion(v)
    ensures |v| == 19
  {
  }

  lemma TitleLength(title: string)
    requires FileTitle(title)
    ensures |title| > 0
  {
  }

  lemma PlainPrint(v: string, title: string)
    requires PlainVersion(v) && FileTitle(title)
    ensures Parse(Print(v, title)) == Some((v, title))
  {
    hide FileTitle;
    var f := Print(v, title);
    NotStamped(v);
    TitleLength(title);
    var rest := "_" + title + ".sql";
    assert f == v + rest;
    RunOfDigits(v, rest);
    NotStampedFile(v, rest);
    assert f[..|v|] == v && f[|v|] == '_' && f[|v| + 1..|f| - 4] == title && f[|f| - 4..] == ".sql";
  }

  lemma NotStamped(v: string)
    requires Digits(v)
    ensures !StampedVersion(v)
  {
    if |v| == 19 { assert v[..15][8] == v[8]; }
  }

  lemma NotStampedFile(v: string, rest: string)
    requires Digits(v) && rest != "" && rest[0] == '_'
    ensures !StampedFile(v + rest)
  {
    var f := v + rest;
    if |f| >= 19 {
      var s := f[..19][..15];
      assert s[8] == f[8] && forall i | 0 <= i < 8 :: s[..8][i] == f[i];
      assert |v| < 8 ==> f[|v|] == '_';
      assert |v| == 8 ==> f[8] == '_';
    }
  }

  /** A name is read as a version and a title exactly when it is the print of them. */
  lemma ParseExactly(f: string, v: string, title: string)
    ensures Parse(f) == Some((v, title)) <==> Version(v) && FileTitle(title) && f == Print(v, title)
  {
    hide Stamp, FileTitle, Digits;
    if Version(v) && FileTitle(title) && f == Print(v, title) {
      if StampedVersion(v) { StampedPrint(v, title); } else { PlainPrint(v, title); }
    }
    if Parse(f) == Some((v, title)) {
      if StampedFile(f) {
        VersionIsFront(f);
        assert f == f[..19] + [f[19]] + f[20..|f| - 4] + f[|f| - 4..];
      } else {
        var n := DigitRun(f);
        RunIsDigits(f);
        NotStamped(f[..n]);
        assert f == f[..n] + [f[n]] + f[n + 1..|f| - 4] + f[|f| - 4..];
      }
    }
  }

  /** Versions and titles, position by position. */
  lemma VersionsExactly(s: string)
    ensures StampedVersion(s) <==> |s| == 19 && s[8] == '-' && s[15] == '-' &&
                                   forall i | 0 <= i < 19 && i != 8 && i != 15 :: '0' <= s[i] <= '9'
    ensures PlainVersion(s) <==> s != "" && forall i | 0 <= i < |s| :: '0' <= s[i] <= '9'
    ensures FileTitle(s) <==> s != "" && forall i | 0 <= i < |s| :: s[i] != '\n'
  {
    if |s| == 19 {
      var t := s[..15];
      assert forall i | 0 <= i < 15 :: t[i] == s[i];
      assert forall i | 0 <= i < 8 :: t[..8][i] == s[i];
      assert forall i | 0 <= i < 6 :: t[9..][i] == s[i + 9];
      assert forall i | 0 <= i < 3 :: s[16..][i] == s[i + 16];
      if StampedVersion(s) {
        assert s[15] == '-' && s[8] == '-';
        assert forall i | 9 <= i < 15 :: s[i] == t[9..][i - 9];
        assert forall i | 16 <= i < 19 :: s[i] == s[16..][i - 16];
      }
    }
  }

  // ----- Version order -----

  function Num(s: string): nat
    requires Digits(s)
  {
    if s == "" then 0 else 10 * Num(s[..|s| - 1]) + (s[|s| - 1] as int - '0' as int)
  }

  lemma {:induction false} NumFront(s: string)
    requires Digits(s) && s != ""
    ensures Num(s) == (s[0] as int - '0' as int) * Pow(10, |s| - 1) + Num(s[1..])
  {
    if |s| == 1 {
      assert s[..0] == "" && s[1..] == "";
    } else {
      NumFront(s[..|s| - 1]);
      assert s[..|s| - 1][1..] == s[1..][..|s| - 2];
      Scale(s[0] as int - '0' as int, Pow(10, |s| - 2));
    }
  }

  lemma Scale(d: nat, p: nat)
    ensures 10 * (d * p) == d * (10 * p)
  {
  }

  lemma {:induction false} NumBound(s: string)
    requires Digits(s)
    ensures Num(s) < Pow(10, |s|)
  {
    if s != "" { NumBound(s[..|s| - 1]); }
  }

  lemma DigitApart(c: nat, d: nat, p: nat, x: nat, y: nat)
    requires c < d && x < p
    ensures c * p + x < d * p + y
  {
    MulMono(c + 1, d, p);
    assert (c + 1) * p == c * p + p;
  }

  lemma BelowFirst(a: string, b: string)
    requires |a| == |b|
    ensures a == "" ==> !Below(a, b)
    ensures a != "" ==> (Below(a, b) <==> a[0] < b[0] || (a[0] == b[0] && Below(a[1..], b[1..])))
  {
  }

  /** Digit strings of one width sort as their numbers. */
  lemma {:induction false} DigitOrder(a: string, b: string)
    requires Digits(a) && Digits(b) && |a| == |b|
    ensures Below(a, b) <==> Num(a) < Num(b)
    ensures a == b <==> Num(a) == Num(b)
  {
    hide Num, Below;
    BelowFirst(a, b);
    if a == "" {
      assert b == "";
    } else {
      NumFront(a);
      NumFront(b);
      NumBound(a[1..]);
      NumBound(b[1..]);
      var c, d, p := a[0] as int - '0' as int, b[0] as int - '0' as int, Pow(10, |a| - 1);
      if c < d {
        DigitApart(c, d, p, Num(a[1..]), Num(b[1..]));
      } else if d < c {
        DigitApart(d, c, p, Num(b[1..]), Num(a[1..]));
      } else {
        DigitOrder(a[1..], b[1..]);
        assert a == [a[0]] + a[1..] && b == [b[0]] + b[1..];
      }
    }
  }

  /** Equal fronts drop out of a comparison, and fronts of one width decide it when
      they differ. */
  lemma {:induction false} FrontDecides(a: string, b: string, x: string, y: string)
    requires |a| == |b|
    ensures Below(a + x, b + y) <==> Below(a, b) || (a == b && Below(x, y))
  {
    if a == "" {
      assert a + x == x && b + y == y;
    } else {
      assert (a + x)[1..] == a[1..] + x && (b + y)[1..] == b[1..] + y;
      FrontDecides(a[1..], b[1..], x, y);
      assert a == [a[0]] + a[1..] && b == [b[0]] + b[1..];
    }
  }

  /** The fields of a stamped version as numbers: date, time, sequence. */
  function Fields(v: string): (int, int, int)
    requires StampedVersion(v)
  {
    StampedParts(v);
    (Num(v[..8]), Num(v[9..15]), Num(v[16..19]))
  }

  lemma StampedParts(v: string)
    requires StampedVersion(v)
    ensures Digits(v[..8]) && Digits(v[9..15]) && Digits(v[16..19]) && v[8] == '-' && v[15] == '-'
  {
    assert v[..15][..8] == v[..8] && v[..15][9..] == v[9..15] && v[16..] == v[16..19] && v[..15][8] == v[8];
  }

  predicate Earlier(x: (int, int, int), y: (int, int, int)) {
    x.0 < y.0 || (x.0 == y.0 && (x.1 < y.1 || (x.1 == y.1 && x.2 < y.2)))
  }

  /** Stamped versions sort as strings exactly as their dates, times and sequence
      numbers sort as numbers. */
  lemma VersionOrder(v: string, w: string)
    requires StampedVersion(v) && StampedVersion(w)
    ensures Below(v, w) <==> Earlier(Fields(v), Fields(w))
    ensures v == w <==> Fields(v) == Fields(w)
  {
    hide Below, Num, StampedVersion, Digits;
    StampedLength(v);
    StampedLength(w);
    StampedParts(v);
    StampedParts(w);
    FieldOrder(v[..8], v[9..15], v[16..19], w[..8], w[9..15], w[16..19], "-");
    assert v == v[..8] + ("-" + (v[9..15] + ("-" + v[16..19])));
    assert w == w[..8] + ("-" + (w[9..15] + ("-" + w[16..19])));
    DigitOrder(v[..8], w[..8]);
    DigitOrder(v[9..15], w[9..15]);
    DigitOrder(v[16..19], w[16..19]);
  }

  lemma FieldOrder(a: string, b: string, c: string, a': string, b': string, c': string, sep: string)
    requires |a| == |a'| && |b| == |b'| && |c| == |c'|
    ensures Below(a + (sep + (b + (sep + c))), a' + (sep + (b' + (sep + c')))) <==>
            Below(a, a') || (a == a' && (Below(b, b') || (b == b' && Below(c, c'))))
  {
    hide Below;
    FrontDecides(a, a', sep + (b + (sep + c)), sep + (b' + (sep + c')));
    FrontDecides(sep, sep, b + (sep + c), b' + (sep + c'));
    FrontDecides(b, b', sep + c, sep + c');
    FrontDecides(sep, sep, c, c');
    BelowIsIrreflexive(sep);
  }

  lemma NumLast(s: string, c: char)
    requires Digits(s) && '0' <= c <= '9'
    ensures Digits(s + [c]) && Num(s + [c]) == 10 * Num(s) + (c as int - '0' as int)
  {
    assert (s + [c])[..|s|] == s;
  }

  lemma PowNext(n: nat)
    ensures Pow(10, 0) == 1 && Pow(10, n + 1) == 10 * Pow(10, n)
  {
  }

  lemma NoDigits()
    ensures Num("") == 0
  {
  }

  lemma {:induction false} NumConcat(a: string, b: string)
    requires Digits(a) && Digits(b)
    ensures Digits(a + b) && Num(a + b) == Num(a) * Pow(10, |b|) + Num(b)
  {
    hide Num, Pow;
    if b == "" {
      assert a + b == a;
      NoDigits();
      PowNext(0);
    } else {
      var n, c := |b| - 1, b[|b| - 1];
      var f := b[..n];
      NumConcat(a, f);
      NumLast(a + f, c);
      NumLast(f, c);
      assert b == f + [c] && a + b == a + f + [c];
      PowNext(n);
      Scale(Num(a), Pow(10, n));
    }
  }

  /** Of two plain versions the string order asks only how the narrower one compares
      with the front of the wider one. */
  lemma PlainOrder(v: string, w: string)
    requires PlainVersion(v) && PlainVersion(w) && |v| < |w|
    ensures Below(v, w) <==> Num(v) <= Num(w[..|v|])
    ensures Below(w, v) <==> Num(v) > Num(w[..|v|])
  {
    var f, rest := w[..|v|], w[|v|..];
    DigitOrder(v, f);
    DigitOrder(f, v);
    FrontDecides(v, f, "", rest);
    FrontDecides(f, v, rest, "");
    assert v + "" == v && f + rest == w;
  }

  predicate SortRight(v: string, w: string)
    requires Digits(v) && Digits(w)
  {
    (Below(v, w) <==> Num(v) < Num(w)) && (Below(w, v) <==> Num(w) < Num(v))
  }

  lemma AtLeastTenfold(n: nat, p: nat)
    requires p >= 10
    ensures n * p >= 10 * n
  {
    MulMono(10, p, n);
  }

  lemma FrontIsLess(v: string, w: string)
    requires PlainVersion(w) && 0 < |v| < |w|
    ensures Digits(w[..|v|]) && Num(w) >= Num(w[..|v|])
    ensures Num(w) == Num(w[..|v|]) ==> Num(w) == 0
  {
    hide Num;
    var f, rest := w[..|v|], w[|v|..];
    assert f + rest == w;
    NumConcat(f, rest);
    PowPositive(10, |rest| - 1);
    AtLeastTenfold(Num(f), Pow(10, |rest|));
  }

  lemma WiderIsMore(v: string, w: string)
    requires PlainVersion(v) && PlainVersion(w) && |v| < |w| && w[0] != '0'
    ensures Num(v) < Num(w)
  {
    hide Num;
    NumFront(w);
    NumBound(v);
    MulMono(1, w[0] as int - '0' as int, Pow(10, |w| - 1));
    PowMono(|v|, |w| - 1);
  }

  lemma {:induction false} PowMono(m: nat, n: nat)
    requires m <= n
    ensures Pow(10, m) <= Pow(10, n)
    decreases n
  {
    if m < n { PowMono(m, n - 1); }
  }

  /** Plain versions of different widths sort as their numbers exactly when the narrower
      one is at most the front of the wider one, or leading zeros make the wider one the
      smaller number; and never when both are zero. */
  lemma PlainVersionsSortExactly(v: string, w: string)
    requires PlainVersion(v) && PlainVersion(w) && |v| < |w|
    ensures SortRight(v, w) <==> if Num(v) <= Num(w[..|v|]) then Num(w) > 0 else Num(w) < Num(v)
    ensures w[0] != '0' ==> Num(v) < Num(w) && (SortRight(v, w) <==> Num(v) <= Num(w[..|v|]))
  {
    hide Num, Below, Digits;
    PlainOrder(v, w);
    FrontIsLess(v, w);
    if w[0] != '0' { WiderIsMore(v, w); }
  }

  /** Leading zeros do not count in the number. */
  lemma ZeroDropped(w: string)
    requires PlainVersion(w) && w[0] == '0'
    ensures Num(w) == Num(w[1..])
  {
    NumFront(w);
  }

  /** One pair that does not. */
  lemma PlainVersionsDisorder()
    ensures PlainVersion("10") && PlainVersion("9") && Below("10", "9") && Num("10") > Num("9")
    ensures !SortRight("9", "10")
  {
    hide Num;
    assert "10"[..1] == "1" && "10"[1..] == "0" && "1"[1..] == "" && "9"[1..] == "" && "0"[1..] == "";
    NumFront("10");
    NumFront("9");
    NumFront("1");
    NumFront("0");
    PlainOrder("9", "10");
  }

  // ----- migrate new -----

  function Digit(d: nat): char
    requires d < 10
  {
    '0' + d as char
  }

  function Decimal(n: nat): string {
    if n < 10 then [Digit(n)] else Decimal(n / 10) + [Digit(n % 10)]
  }

  /** %03d */
  function Pad3(n: nat): string {
    if n < 10 then "00" + Decimal(n) else if n < 100 then "0" + Decimal(n) else Decimal(n)
  }

  predicate HasPrefix(s: string, p: string) {
    |p| <= |s| && s[..|p|] == p
  }

  /** An entry of that second, with its sequence number. */
  predicate Takes(e: string, stamp: string, n: nat) {
    HasPrefix(e, stamp) && StampedFile(e) && SeqOf(e) == n
  }

  function SeqOf(e: string): nat
    requires StampedFile(e)
  {
    StampedParts(e[..19]);
    assert e[..19][16..19] == e[16..19];
    Num(e[16..19])
  }

  function NewName(stamp: string, n: nat, title: string): string {
    stamp + "-" + Pad3(n) + "-" + title + ".sql"
  }

  /** One past the largest number taken, zero when none is. */
  ghost predicate IsNext(entries: seq<string>, stamp: string, n: nat) {
    && (forall e, k: nat | e in entries && Takes(e, stamp, k) :: k < n)
    && (n > 0 ==> exists e :: e in entries && Takes(e, stamp, n - 1))
  }

  method MigrateNew(entries: seq<string>, stamp: string, title: string) returns (filename: string, next: nat)
    requires Stamp(stamp)
    ensures IsNext(entries, stamp, next) && filename == NewName(stamp, next, title)
  {
    hide StampedFile, HasPrefix, SeqOf, Pad3;
    next := 0;
    ghost var last := "";
    for i := 0 to |entries|
      invariant forall e, k: nat | e in entries[..i] && Takes(e, stamp, k) :: k < next
      invariant next > 0 ==> last in entries[..i] && Takes(last, stamp, next - 1)
    {
      var e := entries[i];
      assert entries[..i + 1] == entries[..i] + [e];
      if HasPrefix(e, stamp) {
        if StampedFile(e) {
          var n := SeqOf(e);
          assert Takes(e, stamp, n);
          if n >= next {
            next := n + 1;
            last := e;
          }
        }
      }
    }
    assert entries[..|entries|] == entries;
    filename := NewName(stamp, next, title);
  }

  lemma DecimalIs(n: nat)
    requires n < 1000
    ensures n < 10 ==> Decimal(n) == [Digit(n)]
    ensures 10 <= n < 100 ==> Decimal(n) == [Digit(n / 10), Digit(n % 10)]
    ensures 100 <= n ==> Decimal(n) == [Digit(n / 100), Digit(n / 10 % 10), Digit(n % 10)]
  {
    if 10 <= n < 100 {
      assert Decimal(n / 10) == [Digit(n / 10)];
    } else if 100 <= n {
      var m := n / 10;
      assert m / 10 == n / 100 && Decimal(m / 10) == [Digit(m / 10)];
      assert Decimal(m) == [Digit(m / 10)] + [Digit(m % 10)];
    }
  }

  lemma PadIs(n: nat)
    requires n < 1000
    ensures Pad3(n) == [Digit(n / 100), Digit(n / 10 % 10), Digit(n % 10)]
  {
    hide Decimal;
    DecimalIs(n);
    assert Digit(0) == '0';
    assert n < 100 ==> n / 100 == 0 && n / 10 % 10 == n / 10;
  }

  lemma NumOfThree(a: nat, b: nat, c: nat)
    requires a < 10 && b < 10 && c < 10
    ensures var s := [Digit(a), Digit(b), Digit(c)]; Digits(s) && Num(s) == 100 * a + 10 * b + c
  {
    var s := [Digit(a), Digit(b), Digit(c)];
    assert s[..2] == [Digit(a), Digit(b)] && s[..2][..1] == [Digit(a)] && [Digit(a)][..0] == "";
    assert Num([Digit(a)]) == a;
  }

  lemma PadWidth(n: nat)
    ensures n < 1000 ==> |Pad3(n)| == 3 && Digits(Pad3(n)) && Num(Pad3(n)) == n
    ensures n == 1000 ==> Pad3(n) == "1000"
  {
    hide Num;
    if n < 1000 {
      PadIs(n);
      NumOfThree(n / 100, n / 10 % 10, n % 10);
      assert n == 100 * (n / 100) + 10 * (n / 10 % 10) + n % 10;
    }
    if n == 1000 {
      DecimalIs(100);
      assert Decimal(1000) == Decimal(100) + [Digit(0)];
    }
  }

  lemma NextIsAtMost(entries: seq<string>, stamp: string, n: nat)
    requires IsNext(entries, stamp, n)
    ensures n <= 1000
  {
    if n > 0 {
      var e :| e in entries && Takes(e, stamp, n - 1);
      StampedParts(e[..19]);
      assert e[..19][16..19] == e[16..19];
      NumBound(e[16..19]);
      assert Pow(10, 1) == 10 && Pow(10, 2) == 100 && Pow(10, 3) == 1000;
    }
  }

  lemma NewVersion(stamp: string, n: nat)
    requires Stamp(stamp) && n < 1000
    ensures StampedVersion(stamp + "-" + Pad3(n))
    ensures Fields(stamp + "-" + Pad3(n)) == (Num(stamp[..8]), Num(stamp[9..]), n)
  {
    hide Num, Pad3, Digits;
    PadWidth(n);
    var v := stamp + "-" + Pad3(n);
    assert v[..15] == stamp && v[16..] == Pad3(n) == v[16..19] && v[..8] == stamp[..8] && v[9..15] == stamp[9..];
  }

  /** A file of the second the stamp names: the date and time of its version. */
  lemma SameSecond(e: string, stamp: string)
    requires Stamp(stamp) && StampedFile(e) && HasPrefix(e, stamp)
    ensures StampedVersion(e[..19]) && Fields(e[..19]) == (Num(stamp[..8]), Num(stamp[9..]), SeqOf(e))
  {
    hide Num, Digits, EndsInSql, FileTitle;
    var v := e[..19];
    assert v[..8] == stamp[..8] && v[9..15] == stamp[9..] && v[16..19] == e[16..19];
  }

  /** With fewer than a thousand files in its second and no newline in its title, a new
      file reads back as its version and title; otherwise it is no migration file. */
  lemma NewFileReadsBackExactly(entries: seq<string>, stamp: string, n: nat, title: string)
    requires Stamp(stamp) && IsNext(entries, stamp, n) && title != ""
    ensures if n < 1000 && '\n' !in title
            then Parse(NewName(stamp, n, title)) == Some((stamp + "-" + Pad3(n), title))
            else Parse(NewName(stamp, n, title)).None?
  {
    hide Pad3, Digits, DigitRun;
    NextIsAtMost(entries, stamp, n);
    PadWidth(n);
    var f := NewName(stamp, n, title);
    StampRun(stamp, "-" + Pad3(n) + "-" + title + ".sql");
    assert f == stamp + ("-" + Pad3(n) + "-" + title + ".sql");
    if n < 1000 {
      var v := stamp + "-" + Pad3(n);
      NewVersion(stamp, n);
      assert f[..19] == v && f[19] == '-' && f[20..|f| - 4] == title && f[|f| - 4..] == ".sql";
      VersionIsFront2(f, v);
    } else {
      assert f[19] == '0';
    }
  }

  lemma VersionIsFront2(f: string, v: string)
    requires |f| >= 24 && f[..19] == v && StampedVersion(v)
    ensures f[..8] + "-" + f[9..15] + "-" + f[16..19] == v
  {
    var w := v[..15];
    assert w[8] == v[8] && v == v[..8] + [v[8]] + v[9..15] + [v[15]] + v[16..19];
  }

  /** A stamp's digits end at its hyphen, so no plain version starts with one. */
  lemma StampRun(stamp: string, rest: string)
    requires Stamp(stamp)
    ensures DigitRun(stamp + rest) == 8 && (stamp + rest)[8] == '-'
  {
    RunOfDigits(stamp[..8], stamp[8..] + rest);
    assert stamp[..8] + (stamp[8..] + rest) == stamp + rest;
  }

  /** The new version is fresh and sorts after every other one of its second. */
  lemma NewFileSortsLast(entries: seq<string>, stamp: string, n: nat, e: string)
    requires Stamp(stamp) && IsNext(entries, stamp, n) && n < 1000
    requires e in entries && StampedFile(e) && HasPrefix(e, stamp)
    ensures Parse(e).Some? && Below(Parse(e).value.0, stamp + "-" + Pad3(n))
            && Parse(e).value.0 != stamp + "-" + Pad3(n)
  {
    hide Num, Pad3, Digits, Stamp, HasPrefix, SeqOf, Below;
    VersionIsFront(e);
    SameSecond(e, stamp);
    NewVersion(stamp, n);
    assert Takes(e, stamp, SeqOf(e));
    VersionOrder(e[..19], stamp + "-" + Pad3(n));
  }

  /** In a second whose number 999 is taken, the next file is number 1000 and no
      migration file. */
  lemma NumberThousand() returns (stamp: string, entries: seq<string>)
    ensures Stamp(stamp) && |entries| == 1 && Parse(entries[0]) == Some((stamp + "-999", "a"))
    ensures IsNext(entries, stamp, 1000) && Parse(NewName(stamp, 1000, "b")).None?
  {
    hide Num, Digits, StampedFile, Pad3, NewName, Parse;
    stamp := "20240101-000000";
    SomeStamp(stamp);
    PadNines();
    var v := stamp + "-999";
    NewVersion(stamp, 999);
    NinesVersion(stamp);
    var e := Print(v, "a");
    entries := [e];
    assert FileTitle("a");
    StampedPrint(v, "a");
    NinesTaken(stamp, e);
    NewFileReadsBackExactly(entries, stamp, 1000, "b");
  }

  lemma SomeStamp(stamp: string)
    requires stamp == "20240101-000000"
    ensures Stamp(stamp)
  {
    assert |stamp| == 15 && stamp[8] == '-';
    assert stamp[..8] == "20240101" && stamp[9..] == "000000";
  }

  lemma PadNines()
    ensures Pad3(999) == "999"
  {
    PadIs(999);
  }

  lemma NinesVersion(stamp: string)
    ensures stamp + "-" + Pad3(999) == stamp + "-999"
  {
    hide Pad3;
    PadNines();
    assert stamp + "-" + "999" == stamp + "-999";
  }

  lemma NinesTaken(stamp: string, e: string)
    requires Stamp(stamp) && StampedVersion(stamp + "-999") && e == Print(stamp + "-999", "a")
    ensures IsNext([e], stamp, 1000)
  {
    hide Num, Pad3, Digits;
    var v := stamp + "-999";
    StampedPrint(v, "a");
    PrintIsStamped(v, "a");
    assert HasPrefix(e, stamp) by { assert e[..15] == stamp; }
    SameSecond(e, stamp);
    NewVersion(stamp, 999);
    NinesVersion(stamp);
    assert e[..19] == v;
    assert SeqOf(e) == 999;
    assert Takes(e, stamp, 999);
    assert e in [e] && Takes(e, stamp, 1000 - 1);
    assert forall x, k: nat | x in [e] && Takes(x, stamp, k) :: x == e && k < 1000;
  }

  lemma PrintIsStamped(v: string, title: string)
    requires StampedVersion(v) && FileTitle(title)
    ensures StampedFile(Print(v, title))
  {
    hide StampedVersion, FileTitle;
    var f := Print(v, title);
    StampedLength(v);
    TitleLength(title);
    assert f[..19] == v && f[19] == '-' && f[20..|f| - 4] == title && f[|f| - 4..] == ".sql";
  }
}
