/** Go's order on strings, byte by byte. */
module Order {

  predicate Below(a: string, b: string) {
    b != "" && (a == "" || a[0] < b[0] || (a[0] == b[0] && Below(a[1..], b[1..])))
  }

  /** One string is below another when it is its front, or the first byte that differs
      is the smaller one. */
  ghost predicate Differs(a: string, b: string, n: nat) {
    n <= |a| && n < |b| && a[..n] == b[..n] && (n == |a| || a[n] < b[n])
  }

  lemma {:induction false} BelowExactly(a: string, b: string)
    ensures Below(a, b) <==> exists n: nat :: Differs(a, b, n)
  {
    if Below(a, b) {
      if a == "" || a[0] < b[0] {
        assert Differs(a, b, 0);
      } else {
        BelowExactly(a[1..], b[1..]);
        var n: nat :| Differs(a[1..], b[1..], n);
        assert a[..n + 1] == [a[0]] + a[1..][..n] && b[..n + 1] == [b[0]] + b[1..][..n];
        assert Differs(a, b, n + 1);
      }
    }
    if exists n: nat :: Differs(a, b, n) {
      var n: nat :| Differs(a, b, n);
      if n > 0 {
        assert a[0] == a[..n][0] && b[0] == b[..n][0];
        assert a[1..][..n - 1] == a[..n][1..] && b[1..][..n - 1] == b[..n][1..];
        assert Differs(a[1..], b[1..], n - 1);
        BelowExactly(a[1..], b[1..]);
      }
    }
  }

  lemma {:induction false} BelowIsTotal(a: string, b: string)
    ensures a == b || Below(a, b) || Below(b, a)
  {
    if a != "" && b != "" && a[0] == b[0] {
      BelowIsTotal(a[1..], b[1..]);
      if a[1..] == b[1..] {
        assert a == [a[0]] + a[1..] && b == [b[0]] + b[1..];
      }
    }
  }

  lemma {:induction false} BelowIsTransitive(a: string, b: string, c: string)
    requires Below(a, b) && Below(b, c)
    ensures Below(a, c)
  {
    if a != "" && a[0] == b[0] && b[0] == c[0] {
      BelowIsTransitive(a[1..], b[1..], c[1..]);
    }
  }

  lemma {:induction false} BelowIsIrreflexive(a: string)
    ensures !Below(a, a)
  {
    if a != "" { BelowIsIrreflexive(a[1..]); }
  }

  /** Ascending, without repetition. */
  predicate Sorted(ss: seq<string>) {
    forall i, j | 0 <= i < j < |ss| :: Below(ss[i], ss[j])
  }

  ghost predicate Holds(ss: seq<string>, keys: set<string>) {
    forall k :: k in ss <==> k in keys
  }

  /** The keys of a set in order, as sort.Strings leaves them. */
  method SortedKeys(keys: set<string>) returns (ss: seq<string>)
    ensures Sorted(ss) && Holds(ss, keys)
  {
    ss := [];
    var left := keys;
    while left != {}
      invariant Sorted(ss) && left <= keys
      invariant forall k :: k in ss <==> k in keys - left
      decreases left
    {
      var k :| k in left;
      var i := 0;
      while i < |ss| && Below(ss[i], k)
        invariant 0 <= i <= |ss|
        invariant forall j | 0 <= j < i :: Below(ss[j], k)
      {
        i := i + 1;
      }
      InsertSorted(ss, k, i);
      ss := ss[..i] + [k] + ss[i..];
      left := left - {k};
    }
  }

  lemma InsertSorted(ss: seq<string>, k: string, i: nat)
    requires Sorted(ss) && k !in ss && i <= |ss|
    requires (forall j | 0 <= j < i :: Below(ss[j], k)) && (i < |ss| ==> !Below(ss[i], k))
    ensures Sorted(ss[..i] + [k] + ss[i..])
    ensures forall x :: x in ss[..i] + [k] + ss[i..] <==> x in ss || x == k
  {
    var t := ss[..i] + [k] + ss[i..];
    forall j | i <= j < |ss|
      ensures Below(k, ss[j])
    {
      BelowIsTotal(ss[i], k);
      if i < j { BelowIsTransitive(k, ss[i], ss[j]); }
    }
    forall x
      ensures x in t <==> x in ss || x == k
    {
      if x in ss {
        var j :| 0 <= j < |ss| && ss[j] == x;
        assert t[if j < i then j else j + 1] == x;
      }
      if x == k { assert t[i] == k; }
    }
  }

  /** There is only one such order. */
  lemma {:induction false} SortedIsUnique(a: seq<string>, b: seq<string>, keys: set<string>)
    requires Sorted(a) && Sorted(b) && Holds(a, keys) && Holds(b, keys)
    ensures a == b
    decreases |a|
  {
    assert b != [] ==> b[0] in b;
    if a != [] {
      assert a[0] in b;
      assert b[0] in a;
      if a[0] != b[0] {
        var i :| 0 <= i < |b| && b[i] == a[0];
        var j :| 0 <= j < |a| && a[j] == b[0];
        BelowIsTransitive(b[0], a[0], b[0]);
        BelowIsIrreflexive(b[0]);
      }
      forall k
        ensures k in a[1..] <==> k in keys - {a[0]}
        ensures k in b[1..] <==> k in keys - {a[0]}
      {
        TailIs(a, k);
        TailIs(b, k);
      }
      SortedIsUnique(a[1..], b[1..], keys - {a[0]});
    }
  }

  lemma TailIs(a: seq<string>, k: string)
    requires Sorted(a) && a != []
    ensures k in a[1..] <==> k in a && k != a[0]
  {
    if k in a && k != a[0] {
      var j :| 0 <= j < |a| && a[j] == k;
      assert a[1..][j - 1] == k;
    }
    if k in a[1..] {
      var j :| 0 <= j < |a[1..]| && a[1..][j] == k;
      assert a[j + 1] == k;
      BelowIsIrreflexive(k);
    }
  }
}
