/** Which error texts Run goes on from (migrator.go), said by their words, and what a run
    and a repair do with all others. */
module RunErrors {
  import opened Database
  import opened Migrator

  /** Another node has recorded the version. */
  ghost predicate TakenText(msg: string) {
    Holds(msg, "UNIQUE constraint failed: schema_migrations.version")
  }

  /** The schema change is in place already. */
  ghost predicate InPlaceText(msg: string) {
    || Holds(msg, "duplicate column name")
    || (Holds(msg, "already exists") && (Holds(msg, "table") || Holds(msg, "index")))
  }

  lemma TextsExactly(msg: string)
    ensures IsVersionTaken(msg) <==> TakenText(msg)
    ensures IsIdempotentError(msg) <==> InPlaceText(msg)
  {
    hide Contains, Holds;
    ContainsExactly(msg, VERSION_TAKEN);
    ContainsExactly(msg, "duplicate column name");
    ContainsExactly(msg, "already exists");
    ContainsExactly(msg, "table");
    ContainsExactly(msg, "index");
  }

  /** How Run reads an error: the taken version first, then what is in place. */
  lemma ClassifyExactly(msg: string)
    ensures Classify(Failed(msg)) == TakenByOther <==> TakenText(msg)
    ensures Classify(Failed(msg)) == InPlace <==> InPlaceText(msg) && !TakenText(msg)
    ensures Classify(Failed(msg)) == Fatal(msg) <==> !InPlaceText(msg) && !TakenText(msg)
  {
    hide IsVersionTaken, IsIdempotentError, TakenText, InPlaceText;
    TextsExactly(msg);
  }

  // ----- An error that ends Run -----

  lemma {:induction false} WalkConcat<U>(e: Engine<U>, db: Db<U>, applied: set<string>, a: seq<Migration>,
                                         b: seq<Migration>)
    ensures var (d, r) := Walk(e, db, applied, a);
            Walk(e, db, applied, a + b) == if r.Failed? then (d, r) else Walk(e, d, applied, b)
    decreases a
  {
    hide Migration.Batch, Engine.Transaction, Repaired, Classify;
    if a == [] {
      assert a + b == b;
    } else {
      var m, rest := a[0], a[1..];
      assert (a + b)[0] == m && (a + b)[1..] == rest + b;
      var (d, r) := e.Transaction(db, m.Batch());
      if m.version in applied {
        WalkConcat(e, db, applied, rest, b);
      } else {
        match Classify(r)
        case Applied => WalkConcat(e, d, applied, rest, b);
        case TakenByOther => WalkConcat(e, d, applied, rest, b);
        case InPlace => WalkConcat(e, Repaired(e, d, m).0, applied, rest, b);
        case Fatal(_) =>
      }
    }
  }

  lemma RecordedIsTaken<U>(e: Engine<U>, d: Db<U>, m: Migration, msg: string)
    requires m.version in d.versions && e.Transaction(d, m.Batch()).1 == Failed(msg)
    ensures TakenText(msg)
  {
    hide Engine.Says, IsVersionTaken, TakenText, Migration.Body;
    e.TakenIsTaken();
    TextsExactly(msg);
  }

  lemma FatalStops<U>(e: Engine<U>, d: Db<U>, applied: set<string>, m: Migration, rest: seq<Migration>, msg: string)
    requires m.version !in applied && e.Transaction(d, m.Batch()).1 == Failed(msg)
    requires Classify(Failed(msg)) == Fatal(msg)
    ensures Walk(e, d, applied, [m] + rest) == (d, Failed(msg))
  {
    hide Migration.Batch, Engine.ExecAll, Classify;
    assert ([m] + rest)[0] == m;
  }

  /** A migration that fails with any other text, wherever in the list, ends Run with that
      text, and neither it nor anything behind it is run: the database is the one its
      predecessors left, and its version is not recorded. */
  lemma OtherErrorsEndRun<U>(e: Engine<U>, db: Db<U>, applied: set<string>, done: seq<Migration>, m: Migration,
                             rest: seq<Migration>, msg: string)
    requires m.version !in applied && Walk(e, db, applied, done).1.Done?
    requires e.Transaction(Walk(e, db, applied, done).0, m.Batch()).1 == Failed(msg)
    requires !InPlaceText(msg) && !TakenText(msg)
    ensures Walk(e, db, applied, done + [m] + rest) == (Walk(e, db, applied, done).0, Failed(msg))
    ensures m.version !in Walk(e, db, applied, done).0.versions
  {
    hide Walk, Migration.Batch, Engine.Transaction, TakenText, InPlaceText;
    var d := Walk(e, db, applied, done).0;
    assert done + [m] + rest == done + ([m] + rest);
    WalkConcat(e, db, applied, done, [m] + rest);
    ClassifyExactly(msg);
    FatalStops(e, d, applied, m, rest, msg);
    if m.version in d.versions { RecordedIsTaken(e, d, m, msg); }
  }

  // ----- What a repair passes over -----

  /** The database behind the first n statements, failed ones leaving it alone. */
  function Skipping<U>(e: Engine<U>, db: Db<U>, body: seq<Stmt>, n: nat): Db<U>
    requires n <= |body|
  {
    if n == 0 then db
    else
      var d := Skipping(e, db, body, n - 1);
      match e.Exec(d, body[n - 1]) case Ok(d') => d' case Err(_) => d
  }

  /** Statement i succeeds where the ones before it leave the database, or answers that
      what it does is in place. */
  ghost predicate Passes<U>(e: Engine<U>, db: Db<U>, body: seq<Stmt>, i: nat)
    requires i < |body|
  {
    match e.Exec(Skipping(e, db, body, i), body[i])
    case Ok(_) => true
    case Err(msg) => InPlaceText(msg)
  }

  lemma {:induction false} SkippingFront<U>(e: Engine<U>, db: Db<U>, body: seq<Stmt>, n: nat)
    requires 0 < n <= |body|
    ensures Skipping(e, db, body, n) == Skipping(e, Skipping(e, db, body, 1), body[1..], n - 1)
  {
    hide Engine.Exec;
    if n > 1 {
      SkippingFront(e, db, body, n - 1);
      assert body[1..][n - 2] == body[n - 1];
    }
  }

  /** A repair gets through a body exactly when every statement passes; then it leaves
      what the statements that succeed make of the database. Otherwise it stops at the
      first that does not pass, with its text. */
  lemma {:induction false} RepairBodyExactly<U>(e: Engine<U>, db: Db<U>, body: seq<Stmt>) returns (n: nat)
    ensures n <= |body| && forall i | 0 <= i < n :: Passes(e, db, body, i)
    ensures n == |body| ==> RepairBody(e, db, body) == (Skipping(e, db, body, n), Done)
    ensures n < |body| ==> !Passes(e, db, body, n) &&
                           RepairBody(e, db, body) == (Skipping(e, db, body, n),
                                                       Failed(e.Exec(Skipping(e, db, body, n), body[n]).msg))
    decreases body
  {
    hide IsIdempotentError, InPlaceText, Engine.Transaction, Engine.Exec;
    if body == [] {
      n := 0;
    } else {
      SingleStatement(e, db, body[0]);
      var first := e.Exec(db, body[0]);
      if first.Err? { TextsExactly(first.msg); }
      assert Skipping(e, db, body, 0) == db;
      if first.Err? && !InPlaceText(first.msg) {
        n := 0;
      } else {
        var d := Skipping(e, db, body, 1);
        var k := RepairBodyExactly(e, d, body[1..]);
        n := k + 1;
        forall i | 0 <= i <= k
          ensures Skipping(e, db, body, i + 1) == Skipping(e, d, body[1..], i)
        {
          SkippingFront(e, db, body, i + 1);
        }
        forall i | 0 < i < n
          ensures Passes(e, db, body, i)
        {
          assert Passes(e, d, body[1..], i - 1);
        }
      }
    }
  }

  /** A migration is recorded by repair exactly when each of its statements succeeds or
      answers that its change is in place. */
  lemma RepairedExactly<U>(e: Engine<U>, db: Db<U>, m: Migration)
    ensures Repaired(e, db, m).1.Done? <==> forall i | 0 <= i < |m.Body()| :: Passes(e, db, m.Body(), i)
    ensures Repaired(e, db, m).1.Done? ==>
            var d := Skipping(e, db, m.Body(), |m.Body()|);
            Repaired(e, db, m).0 == d.(versions := d.versions + {m.version})
  {
    hide Engine.Transaction, Engine.Exec, RepairBody, Skipping, Passes, Migration.Body;
    var n := RepairBodyExactly(e, db, m.Body());
    var d := RepairBody(e, db, m.Body()).0;
    SingleStatement(e, d, InsertOrIgnoreVersion(m.version));
    Recording(e, d, m.version);
  }
}
