/** The reconnect delays over an unbounded run of failed dials (pubsub_ws.go). */
module Backoff {
  import opened Arithmetic
  import opened Options
  import opened PubSub

  /** The fields behind n failed dials in a row, from a fresh count. */
  function Failed(f: Fields, base: nat, cap: nat, n: nat): Fields {
    if n == 0 then f else RescheduleSection(Failed(f, base, cap, n - 1), base, cap).0
  }

  /** The delay after failed dial n + 1. */
  function DelayAt(f: Fields, base: nat, cap: nat, n: nat): Option<nat> {
    RescheduleSection(Failed(f, base, cap, n), base, cap).1
  }

  /** Attempt k reaches the cap: base * 3^(k-1) >= cap * 2^(k-1). */
  predicate Reaches(base: nat, cap: nat, k: nat)
    requires k > 0
  {
    base * Pow(3, k - 1) >= cap * Pow(2, k - 1)
  }

  /** k is the first attempt that reaches the cap. */
  predicate IsCycle(base: nat, cap: nat, k: nat) {
    k > 0 && Reaches(base, cap, k) && forall j | 0 < j < k :: !Reaches(base, cap, j)
  }

  lemma DivAtLeast(a: nat, b: nat, c: nat)
    requires b > 0
    ensures a / b >= c <==> a >= c * b
  {
    var q := a / b;
    assert a == q * b + a % b;
    assert (q + 1) * b == q * b + b;
    if q >= c {
      MulMono(c, q, b);
    } else {
      MulMono(q + 1, c, b);
    }
  }

  /** The cut delay reaches the cap exactly when the exact one does. */
  lemma RawReaches(base: nat, cap: nat, k: nat)
    requires k > 0
    ensures RawDelay(base, k) >= cap <==> Reaches(base, cap, k)
  {
    PowPositive(2, k - 1);
    DivAtLeast(base * Pow(3, k - 1), Pow(2, k - 1), cap);
  }

  lemma MulAssoc(x: nat, y: nat, z: nat)
    ensures x * (z * y) == z * (x * y)
  {
  }

  lemma GrowStep(base: nat, p: nat, q: nat)
    requires q > 0
    ensures base * p / q <= base * (3 * p) / (2 * q)
  {
    var n := base * p;
    var d := n / q;
    DivAtLeast(n, q, d);
    MulAssoc(d, q, 2);
    MulAssoc(base, p, 3);
    DivAtLeast(3 * n, 2 * q, d);
  }

  /** Each attempt waits at least as long as the one before. */
  lemma RawGrows(base: nat, k: nat)
    requires k > 0
    ensures RawDelay(base, k) <= RawDelay(base, k + 1)
  {
    PowPositive(2, k - 1);
    GrowStep(base, Pow(3, k - 1), Pow(2, k - 1));
  }

  lemma {:induction false} RawAtLeastBase(base: nat, k: nat)
    requires k > 0
    ensures RawDelay(base, k) >= base
  {
    if k > 1 {
      RawAtLeastBase(base, k - 1);
      RawGrows(base, k - 1);
    }
  }

  lemma Distribute(n: nat, q: nat)
    ensures (n + 1) * q == n * q + q && (n + 2) * (2 * q) == 2 * (n * q) + 4 * q && (n + 2) * q == n * q + 2 * q
  {
  }

  lemma BernoulliStep(n: nat, p: nat, q: nat)
    requires n > 0 && 2 * p >= (n + 1) * q
    ensures 2 * (3 * p) >= (n + 2) * (2 * q)
  {
    Distribute(n, q);
    MulMono(1, n, q);
  }

  /** 3^n grows past any multiple of 2^n. */
  lemma {:induction false} Bernoulli(n: nat)
    ensures 2 * Pow(3, n) >= (n + 2) * Pow(2, n)
  {
    if n > 0 {
      Bernoulli(n - 1);
      BernoulliStep(n, Pow(3, n - 1), Pow(2, n - 1));
    }
  }

  /** Some attempt reaches the cap, so there is a cycle. */
  lemma CycleExists(base: nat, cap: nat) returns (k: nat)
    requires base > 0
    ensures IsCycle(base, cap, k)
  {
    var n := 2 * cap;
    Bernoulli(n);
    var p, q := Pow(3, n), Pow(2, n);
    MulMono(2 * cap, n + 2, q);
    assert 2 * p >= 2 * (cap * q) by { assert (2 * cap) * q == 2 * (cap * q); }
    MulMono(1, base, p);
    assert Reaches(base, cap, n + 1);
    k := Least(base, cap, n + 1);
  }

  lemma {:induction false} Least(base: nat, cap: nat, n: nat) returns (k: nat)
    requires n > 0 && Reaches(base, cap, n)
    ensures IsCycle(base, cap, k)
    decreases n
  {
    if j :| 0 < j < n && Reaches(base, cap, j) {
      k := Least(base, cap, j);
    } else {
      k := n;
    }
  }

  /** The count of attempts runs through the cycle. */
  lemma {:induction false} AttemptsCycle(f: Fields, base: nat, cap: nat, k: nat, n: nat)
    requires !f.closed && f.attempts == 0 && IsCycle(base, cap, k)
    ensures Failed(f, base, cap, n) == f.(attempts := n % k)
    decreases n
  {
    if n > 0 {
      AttemptsCycle(f, base, cap, k, n - 1);
      var a := (n - 1) % k + 1;
      RawReaches(base, cap, a);
      ModStep(n - 1, k);
    } else {
      ModSmall(k);
    }
  }

  lemma ModStep(m: nat, k: nat)
    requires k > 0
    ensures (m + 1) % k == if m % k + 1 == k then 0 else m % k + 1
  {
    var q, r := m / k, m % k;
    assert m == q * k + r;
    if r + 1 == k {
      assert m + 1 == (q + 1) * k;
      ModIs(m + 1, k, q + 1, 0);
    } else {
      ModIs(m + 1, k, q, r + 1);
    }
  }

  lemma ModIs(m: nat, k: nat, q: nat, r: nat)
    requires k > 0 && r < k && m == q * k + r
    ensures m % k == r
  {
    var q', r' := m / k, m % k;
    assert m == q' * k + r';
    assert (q + 1) * k == q * k + k && (q' + 1) * k == q' * k + k;
    if q < q' { MulMono(q + 1, q', k); }
    if q' < q { MulMono(q' + 1, q, k); }
  }

  lemma ModSmall(k: nat)
    requires k > 0
    ensures 0 % k == 0
  {
  }

  /** Over any number of failed dials in a row, for a positive base: the delays run
      through one cycle of k again and again, k the least attempt whose exact delay
      reaches the cap. Within a cycle they never fall, the last one is the cap, no
      other reaches it, and none is below the smaller of base and cap. */
  lemma DelaysCycle(f: Fields, base: nat, cap: nat) returns (k: nat)
    requires !f.closed && f.attempts == 0 && base > 0
    ensures IsCycle(base, cap, k)
    ensures forall n: nat :: DelayAt(f, base, cap, n) ==
              Some(if n % k == k - 1 then cap else RawDelay(base, n % k + 1))
    ensures forall n: nat :: DelayAt(f, base, cap, n + k) == DelayAt(f, base, cap, n)
    ensures forall n: nat :: var d := DelayAt(f, base, cap, n).value;
              d <= cap && d >= (if base < cap then base else cap) && (d == cap <==> n % k == k - 1)
    ensures forall n: nat | n % k != k - 1 :: DelayAt(f, base, cap, n).value <= DelayAt(f, base, cap, n + 1).value
  {
    hide *;
    k := CycleExists(base, cap);
    forall n: nat
      ensures DelayAt(f, base, cap, n) == Some(if n % k == k - 1 then cap else RawDelay(base, n % k + 1))
      ensures DelayAt(f, base, cap, n + k) == DelayAt(f, base, cap, n)
      ensures var d := DelayAt(f, base, cap, n).value;
              d <= cap && d >= (if base < cap then base else cap) && (d == cap <==> n % k == k - 1)
      ensures n % k != k - 1 ==> DelayAt(f, base, cap, n + 1).Some? &&
                                 DelayAt(f, base, cap, n).value <= DelayAt(f, base, cap, n + 1).value
    {
      DelayIs(f, base, cap, k, n);
      DelayIs(f, base, cap, k, n + 1);
      DelayIs(f, base, cap, k, n + k);
      ModPeriod(n, k);
      RawGrows(base, n % k + 1);
    }
  }

  lemma ModPeriod(n: nat, k: nat)
    requires k > 0
    ensures (n + k) % k == n % k
    ensures (n + 1) % k == if n % k + 1 == k then 0 else n % k + 1
  {
    ModStep(n, k);
    assert n + k == (n / k + 1) * k + n % k;
    ModIs(n + k, k, n / k + 1, n % k);
  }

  lemma DelayIs(f: Fields, base: nat, cap: nat, k: nat, n: nat)
    requires !f.closed && f.attempts == 0 && base > 0 && IsCycle(base, cap, k)
    ensures DelayAt(f, base, cap, n) == Some(if n % k == k - 1 then cap else RawDelay(base, n % k + 1))
    ensures n % k != k - 1 ==> RawDelay(base, n % k + 1) < cap
    ensures RawDelay(base, n % k + 1) >= base
  {
    AttemptsCycle(f, base, cap, k, n);
    var a := n % k + 1;
    RawReaches(base, cap, a);
    RawAtLeastBase(base, a);
  }
}
