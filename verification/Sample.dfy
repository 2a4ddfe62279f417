/** A small setup that meets every assumption of Protocol and Convergence: one migration
    creates a table, the next adds a column to it. */
module Sample {
  import opened Convergence
  import opened Database
  import Loading
  import opened Migrator
  import opened Protocol
  import opened Splitter
  import SplitterNormalForm
  import Text

  function Parse(sql: string): Ddl {
    if sql == "a" then CreateTable("t", {"x"}, false) else AddColumn("t", "y")
  }

  function Run(d: Db<Schema>, sql: string): Outcome<Db<Schema>> {
    match Parse(sql).Run(d.user)
    case Ok(u) => Ok(d.(user := u))
    case Err(m) => Err("" + m + "")
  }

  function Example(): Additive {
    Additive(Setup(Engine("", "", Run), [Migration("1", "table", "a"), Migration("2", "column", "b")], Db({}, {}), 0),
             Parse, {})
  }

  lemma OneLetter(s: string)
    requires s == "a" || s == "b"
    ensures Statements(s) == [s]
  {
    assert Next(s) == Token(Plain, s) by { assert s[..1] == s; }
    assert s[1..] == "";
    assert Lex(s) == [Token(Plain, s)] + Lex("");
    assert Text.TrimSpace(s) == s;
    assert SplitterNormalForm.Normal(s);
    SplitterNormalForm.NormalSplits(s);
  }

  lemma {:induction false} ContainsIsShorter(s: string, sub: string)
    requires Contains(s, sub)
    ensures |sub| <= |s|
  {
    if !(|sub| <= |s| && s[..|sub|] == sub) { ContainsIsShorter(s[1..], sub); }
  }

  lemma ShortIsNotTaken(msg: string)
    requires |msg| < 30
    ensures !IsVersionTaken(msg)
  {
    if IsVersionTaken(msg) { ContainsIsShorter(msg, VERSION_TAKEN); }
  }

  lemma AnswersAreShort(sql: string, st: Schema)
    ensures match Parse(sql).Run(st) case Ok(_) => true case Err(m) => |m| < 30
    ensures |Parse(sql).InPlaceError()| < 30
  {
  }

  lemma ExampleBodies()
    ensures forall i | 0 <= i < 2 :: |Example().setup.list[i].Body()| == 1 && Example().setup.list[i].Body()[0].User?
    ensures Example().P() == Plan({}, [Parse("a"), Parse("b")])
  {
    hide Statements;
    var e := Example();
    OneLetter("a");
    OneLetter("b");
    assert e.Upto(1) == e.Upto(0) + e.Ddls(0) && e.Upto(2) == e.Upto(1) + e.Ddls(1);
  }

  lemma PlanSucceeds(p: Plan)
    requires p == Plan({}, [Parse("a"), Parse("b")])
    ensures p.Succeeds()
  {
    var t := Parse("a");
    assert t.Run({}) == Ok({} + t.Gives());
    assert p.Clean(0) == Ok({}) && p.Clean(1) == t.Run({});
    assert Table("t") in t.Gives() && Column("t", "y") !in t.Gives();
  }

  lemma ExampleConverges()
    ensures Example().Valid() && Example().P().Succeeds()
  {
    hide Statements, IsVersionTaken, Plan.Succeeds, Additive.Upto, Ddl.InPlaceError, Ddl.Run, Parse;
    var e := Example();
    ExampleBodies();
    PlanSucceeds(e.P());
    forall p | 0 <= p < 2
      ensures !IsVersionTaken("" + e.P().all[p].InPlaceError() + "")
    {
      var sql := if p == 0 then "a" else "b";
      AnswersAreShort(sql, {});
      ShortIsNotTaken("" + Parse(sql).InPlaceError() + "");
    }
    assert e.setup.list[0].version[0] != e.setup.list[1].version[0];
  }

  lemma ExampleStarts()
    requires Example().P().Succeeds()
    ensures Example().DbOk(Example().setup.db0)
  {
    hide Statements, Additive.Upto;
    var e := Example();
    ExampleBodies();
    e.P().CGrows(0, 2);
    forall p | 0 <= p < 2
      ensures e.P().Adds(p) !! {}
    {
    }
  }

  lemma RunIsHonest(d: Db<Schema>, sql: string)
    ensures match Run(d, sql) case Ok(d') => d'.versions == d.versions case Err(m) => !IsVersionTaken(m)
  {
    hide IsVersionTaken, Ddl.Run, Parse;
    AnswersAreShort(sql, d.user);
    match Parse(sql).Run(d.user)
    case Ok(_) =>
    case Err(m) => ShortIsNotTaken("" + m + "");
  }

  lemma ExampleRuns(d: Db<Schema>, s: Stmt)
    requires s.User?
    ensures Example().setup.engine.Exec(d, s) == Run(d, s.sql)
  {
    hide Run;
  }

  lemma ExampleIsHonest()
    ensures Example().setup.Honest()
  {
    hide Statements, IsVersionTaken, Migration.Body, Run, Example, Engine.Exec, Additive.P;
    var setup := Example().setup;
    ExampleBodies();
    ExampleShape();
    forall i, d: Db<Schema>, s | 0 <= i < 2 && s in setup.list[i].Body()
      ensures match setup.engine.Exec(d, s)
              case Ok(d') => d'.versions == d.versions
              case Err(m) => !IsVersionTaken(m)
    {
      ExampleRuns(d, s);
      RunIsHonest(d, s.sql);
    }
  }

  lemma SetupIsValid(setup: Setup<Schema>)
    requires setup.k0 == 0 && |setup.list| == 2 && setup.db0.versions == {} && setup.Honest()
    requires setup.list[0].version != setup.list[1].version
    ensures setup.Valid()
  {
    hide Setup.Honest;
  }

  lemma ExampleShape()
    ensures var setup := Example().setup;
            && setup.k0 == 0 && |setup.list| == 2 && setup.db0.versions == {}
            && setup.list[0].version != setup.list[1].version
  {
    assert "1"[0] != "2"[0];
  }

  /** The assumptions hold of the example and its empty database. */
  lemma ExampleIsValid()
    ensures Example().Valid() && Example().P().Succeeds() && Example().DbOk(Example().setup.db0)
    ensures Example().setup.Valid()
  {
    hide *;
    ExampleConverges();
    ExampleStarts();
    ExampleIsHonest();
    ExampleShape();
    SetupIsValid(Example().setup);
  }

  // ----- A setup that repairs -----

  /** The example on a database that has the table but no recorded version. */
  function InPlaceExample(): Setup<Schema> {
    Example().setup.(db0 := Db({}, {Table("t"), Column("t", "x")}))
  }

  /** Its first migration answers that the table exists, and so some run repairs. */
  lemma InPlaceRepairs()
    ensures InPlaceExample().Valid() && !InPlaceExample().Clean()
    ensures exists acts :: InPlaceExample().Runs(InPlaceExample().Init(), acts) &&
                           !InPlaceExample().QuietRun(InPlaceExample().Init(), acts)
  {
    hide Setup.Honest;
    InPlaceIsUnclean();
    InPlaceExample().NoRepairExactlyWhenClean();
  }

  lemma InPlaceIsUnclean()
    ensures InPlaceExample().Valid() && !InPlaceExample().Clean()
  {
    hide Setup.Honest;
    ExampleIsHonest();
    SameIsHonest();
    ExampleShape();
    SetupIsValid(InPlaceExample());
    FirstIsInPlace();
  }

  lemma SameIsHonest()
    requires Example().setup.Honest()
    ensures InPlaceExample().Honest()
  {
    hide IsVersionTaken, Migration.Body, Run;
  }

  lemma TableInPlace(d: Db<Schema>)
    requires Table("t") in d.user
    ensures Run(d, "a") == Err("" + Parse("a").InPlaceError() + "")
    ensures Classify(Failed("" + Parse("a").InPlaceError() + "")).InPlace?
  {
    hide IsIdempotentError, IsVersionTaken, Ddl.InPlaceError;
    Parse("a").InPlaceErrorIsIdempotent("", "");
    AnswersAreShort("a", d.user);
    ShortIsNotTaken("" + Parse("a").InPlaceError() + "");
  }

  lemma FirstFails(e: Engine<Schema>, db: Db<Schema>, m: Migration, msg: string)
    requires db.versions == {} && m.Body() == [User("a")] && e.run(db.(versions := {m.version}), "a") == Err(msg)
    ensures e.Transaction(db, m.Batch()) == (db, Failed(msg))
  {
    hide Migration.Body;
    assert m.Batch()[1..] == m.Body() && db.versions + {m.version} == {m.version};
    assert e.ExecAll(db.(versions := {m.version}), [User("a")]) == Err(msg);
  }

  lemma FirstIsInPlace()
    ensures !InPlaceExample().CleanAt(0)
  {
    hide Migration.Body, Ddl.InPlaceError, Setup.Honest, Parse, Run, Classify, Engine.Transaction;
    var setup := InPlaceExample();
    var db, m := setup.db0, setup.list[0];
    BodyOfFirst();
    TableInPlace(db.(versions := {m.version}));
    FirstFails(setup.engine, db, m, "" + Parse("a").InPlaceError() + "");
    assert setup.After(0) == Ok(db);
  }

  lemma BodyOfFirst()
    ensures InPlaceExample().list[0].Body() == [User("a")]
  {
    hide Splitter.Statements;
    OneLetter("a");
  }

  // ----- Two ways to lose a migration -----

  /** An engine whose statement "a" inserts the row of version 1 into schema_migrations,
      and whose other statements create a table. */
  function RunRow(d: Db<Schema>, sql: string): Outcome<Db<Schema>> {
    if sql == "a" then
      if "1" in d.versions then Err("" + VERSION_TAKEN + "") else Ok(d.(versions := d.versions + {"1"}))
    else Ok(d.(user := d.user + {Table("t")}))
  }

  lemma BodyOf(title: string, sql: string)
    requires sql == "a" || sql == "b"
    ensures Migration("2", title, sql).Body() == [User(sql)]
  {
    hide Statements;
    OneLetter(sql);
  }

  /** With version 1 recorded, a migration 2 that inserts that row again fails, is taken
      for one that another node applied, and Run ends without error: nothing is applied
      and version 2 is not recorded. */
  lemma MisreadMigration()
    ensures var e, db, m := Engine("", "", RunRow), Db({"1"}, {}), Migration("2", "title", "a");
            && OwnVersionsOnly(e, db.versions, [m]) && Distinct([m])
            && Misread(e, db, m) && MisreadOnWalk(e, db, db.versions, [m])
            && Walk(e, db, db.versions, [m]) == (db, Done) && m.version !in db.versions
  {
    hide Migration.Body, IsIdempotentError, IsVersionTaken;
    var e, db, m := Engine("", "", RunRow), Db({"1"}, {}), Migration("2", "title", "a");
    BodyOf("title", "a");
    assert "1"[0] != "2"[0];
    var d := db.(versions := db.versions + {"2"});
    assert m.Batch() == [InsertVersion("2"), User("a")] && m.Batch()[1..] == [User("a")];
    assert e.ExecAll(d, [User("a")]) == Err("" + VERSION_TAKEN + "");
    e.TakenIsTaken();
    assert [m][1..] == [];
  }

  lemma TableOnly(base: set<string>)
    ensures KeepsVersions(Engine("", "", RunRow), base, [User("b")])
  {
    assert "b"[0] != "a"[0];
  }

  lemma FilesAreCovered(first: Migration, second: Migration)
    requires first == Migration("2", "title", "b") && second == Migration("2", "other", "b")
    ensures OwnVersionsOnly(Engine("", "", RunRow), {}, [first, second])
  {
    hide Migration.Body, KeepsVersions;
    BodyOf("title", "b");
    BodyOf("other", "b");
    TableOnly({});
  }

  /** Two files of version 2: the first runs, the second never does, with no error. */
  lemma SkippedMigration()
    ensures var e, db := Engine("", "", RunRow), Db({}, {});
            var first, second := Migration("2", "title", "b"), Migration("2", "other", "b");
            var list := [first, second];
            && OwnVersionsOnly(e, db.versions, list)
            && Walk(e, db, db.versions, list) == (Db({"2"}, {Table("t")}), Done)
            && Loading.Ran(e, db, db.versions, list) == [first]
  {
    hide Migration.Body, IsIdempotentError, IsVersionTaken, OwnVersionsOnly;
    var e, db := Engine("", "", RunRow), Db({}, {});
    var first, second := Migration("2", "title", "b"), Migration("2", "other", "b");
    var list := [first, second];
    FilesAreCovered(first, second);
    BodyOf("title", "b");
    assert first.Batch() == [InsertVersion("2"), User("b")] && first.Batch()[1..] == [User("b")];
    var d := Db({"2"}, {Table("t")});
    assert [User("b")][1..] == [] && "b"[0] != "a"[0];
    assert e.ExecAll(d, []) == Ok(d);
    assert db.user + {Table("t")} == d.user && db.versions + {"2"} == d.versions;
    assert e.Exec(db.(versions := {"2"}), User("b")) == Ok(d);
    assert e.ExecAll(db.(versions := {"2"}), [User("b")]) == Ok(d);
    assert e.Transaction(db, first.Batch()) == (d, Done);
    Setup(e, [], d, 0).ReapplyChangesNothing(d, second);
    assert list[1..] == [second] && [second][1..] == [];
    assert Walk(e, d, db.versions, [second]) == (d, Done);
    assert Loading.Ran(e, d, db.versions, [second]) == Loading.Ran(e, d, db.versions, []) == [];
  }
}
