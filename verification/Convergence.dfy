/** Repair converges (migrator.go): for migrations that only add schema, any number
    of nodes applying and repairing at once, from any part of the additions already
    in place, end with every version recorded and the schema of a clean run. */
module Convergence {
  import opened Database
  import opened Migrator
  import opened Protocol
  import Splitter

  // ----- Additive schema statements -----

  datatype Atom = Table(t: string) | Column(t: string, c: string) | Index(i: string)

  type Schema = set<Atom>

  datatype Ddl =
    | CreateTable(t: string, cols: set<string>, ifNotExists: bool)
    | AddColumn(t: string, c: string)
    | CreateIndex(i: string, t: string, cols: set<string>, ifNotExists: bool)
  {
    /** The thing whose being there already makes the statement fail or do nothing. */
    function Key(): Atom {
      match this
      case CreateTable(t, _, _) => Table(t)
      case AddColumn(t, c) => Column(t, c)
      case CreateIndex(i, _, _, _) => Index(i)
    }

    function Needs(): Schema {
      match this
      case CreateTable(_, _, _) => {}
      case AddColumn(t, _) => {Table(t)}
      case CreateIndex(_, t, cols, _) => {Table(t)} + set c | c in cols :: Column(t, c)
    }

    function Gives(): Schema {
      match this
      case CreateTable(t, cols, _) => {Table(t)} + set c | c in cols :: Column(t, c)
      case AddColumn(t, c) => {Column(t, c)}
      case CreateIndex(i, _, _, _) => {Index(i)}
    }

    function Tolerant(): bool {
      match this
      case CreateTable(_, _, b) => b
      case AddColumn(_, _) => false
      case CreateIndex(_, _, _, b) => b
    }

    function InPlaceError(): string {
      match this
      case CreateTable(t, _, _) => "table" + (" " + t + " ") + "already exists"
      case AddColumn(_, c) => "duplicate column name" + (": " + c) + ""
      case CreateIndex(i, _, _, _) => "index" + (" " + i + " ") + "already exists"
    }

    /** SQLite looks for the table first, then for the thing itself, then for columns. */
    function Run(st: Schema): Outcome<Schema> {
      if !CreateTable? && Table(t) !in st then Err("no such table: " + t)
      else if Key() in st then
        if Tolerant() then Ok(st) else Err(InPlaceError())
      else if !(Needs() <= st) then Err("no such column")
      else Ok(st + Gives())
    }

    lemma KeyIsGiven()
      ensures Key() in Gives()
    {
    }

    /** What the statement answers when its thing is in place is what repair skips. */
    lemma InPlaceErrorIsIdempotent(prefix: string, suffix: string)
      ensures IsIdempotentError(prefix + InPlaceError() + suffix)
    {
      hide Contains;
      match this
      case CreateTable(t, _, _) => ContainsBoth(prefix, "table", " " + t + " ", "already exists", suffix);
      case AddColumn(_, c) => ContainsBoth(prefix, "duplicate column name", ": " + c, "", suffix);
      case CreateIndex(i, _, _, _) => ContainsBoth(prefix, "index", " " + i + " ", "already exists", suffix);
    }
  }

  lemma ContainsBoth(p: string, a: string, m: string, b: string, q: string)
    ensures Contains(p + (a + m + b) + q, a) && Contains(p + (a + m + b) + q, b)
  {
    hide Contains;
    ContainsMiddle(p, a, m + b + q);
    assert p + a + (m + b + q) == p + (a + m + b) + q;
    ContainsMiddle(p + a + m, b, q);
    assert p + a + m + b + q == p + (a + m + b) + q;
  }

  // ----- A list of additive statements on a clean schema -----

  datatype Plan = Plan(base: Schema, all: seq<Ddl>) {

    /** The schema behind the first p statements of a clean run. */
    function Clean(p: nat): Outcome<Schema>
      requires p <= |all|
      decreases p
    {
      if p == 0 then Ok(base)
      else match Clean(p - 1)
        case Ok(st) => all[p - 1].Run(st)
        case Err(m) => Err(m)
    }

    /** The clean run succeeds. */
    predicate Succeeds() { Clean(|all|).Ok? }

    lemma {:induction false} CleanOk(p: nat)
      requires Succeeds() && p <= |all|
      ensures Clean(p).Ok?
      decreases |all| - p
    {
      if p < |all| { CleanOk(p + 1); }
    }

    function C(p: nat): Schema
      requires Succeeds() && p <= |all|
    {
      CleanOk(p);
      Clean(p).db
    }

    /** What statement p adds. */
    function Adds(p: nat): Schema
      requires Succeeds() && p < |all|
    {
      C(p + 1) - C(p)
    }

    lemma CStep(p: nat)
      requires Succeeds() && p < |all|
      ensures all[p].Run(C(p)) == Ok(C(p + 1)) && C(p) <= C(p + 1)
    {
      CleanOk(p + 1);
    }

    lemma {:induction false} CGrows(p: nat, q: nat)
      requires Succeeds() && p <= q <= |all|
      ensures C(p) <= C(q)
      decreases q - p
    {
      if p < q {
        CStep(p);
        CGrows(p + 1, q);
      }
    }

    /** Between the base and the full schema, each statement's additions in place as
        a whole or not at all: any part of the additions. */
    predicate Partial(st: Schema)
      requires Succeeds()
    {
      && base <= st <= C(|all|)
      && forall p | 0 <= p < |all| :: Adds(p) <= st || Adds(p) !! st
    }

    /** With everything before it in place, a statement adds what it adds on a clean
        schema, or says that it is in place. */
    lemma RunOnPartial(st: Schema, p: nat)
      requires Succeeds() && p < |all| && Partial(st) && C(p) <= st
      ensures match all[p].Run(st)
              case Ok(st') => st' == st + Adds(p)
              case Err(m) => m == all[p].InPlaceError() && Adds(p) <= st
      ensures C(p + 1) <= st + Adds(p)
    {
      hide Ddl.Gives, Ddl.Needs, Ddl.InPlaceError;
      CStep(p);
      var d := all[p];
      d.KeyIsGiven();
      NeedsTable(d);
      assert d.Run(C(p)) == Ok(C(p + 1));
      if d.Key() in C(p) {
        assert Adds(p) == {};
      } else {
        assert C(p + 1) == C(p) + d.Gives();
        assert d.Key() in Adds(p);
      }
    }

    lemma NeedsTable(d: Ddl)
      ensures !d.CreateTable? ==> Table(d.t) in d.Needs()
    {
    }

    /** Adding one statement's part keeps the schema between base and full. */
    lemma AddKeepsPartial(st: Schema, p: nat)
      requires Succeeds() && p < |all| && Partial(st)
      ensures Partial(st + Adds(p))
    {
      CStep(p);
      CGrows(p + 1, |all|);
      forall q | 0 <= q < |all| ensures Adds(q) <= st + Adds(p) || Adds(q) !! st + Adds(p) {
        assert Adds(q) <= st || Adds(q) !! st;
        if q < p { CGrows(q + 1, p); } else if p < q { CGrows(p + 1, q); }
      }
    }

    /** Everything in place is the full schema. */
    lemma FullIsClean(st: Schema)
      requires Succeeds() && Partial(st) && C(|all|) <= st
      ensures st == C(|all|)
    {
    }
  }

  // ----- The migrations as such a list -----

  /** A protocol setup whose migrations' statements parse to additive ones, run on a
      schema from `base`. */
  datatype Additive = Additive(setup: Setup<Schema>, parse: string -> Ddl, base: Schema) {

    function Ddls(i: nat): seq<Ddl>
      requires i < |setup.list|
    {
      var stmts := Splitter.Statements(setup.list[i].sql);
      seq(|stmts|, j requires 0 <= j < |stmts| => parse(stmts[j]))
    }

    /** The statements of the first i migrations, in order. */
    function Upto(i: nat): seq<Ddl>
      requires i <= |setup.list|
    {
      if i == 0 then [] else Upto(i - 1) + Ddls(i - 1)
    }

    function P(): Plan { Plan(base, Upto(|setup.list|)) }

    function Off(i: nat): nat
      requires i <= |setup.list|
    {
      |Upto(i)|
    }

    lemma {:induction false} UptoPrefix(i: nat, k: nat)
      requires i <= k <= |setup.list|
      ensures Upto(i) <= Upto(k)
      decreases k
    {
      hide Ddls;
      if i < k { UptoPrefix(i, k - 1); }
    }

    /** Statement j of migration i is statement Off(i) + j of the plan. */
    lemma AtPlan(i: nat, j: nat)
      requires i < |setup.list| && j < |Ddls(i)|
      ensures Off(i) + j < Off(i + 1) <= |P().all| && P().all[Off(i) + j] == Ddls(i)[j]
    {
      hide Ddls;
      UptoPrefix(i + 1, |setup.list|);
      assert Upto(i + 1)[Off(i) + j] == Ddls(i)[j];
    }

    lemma OffBound(i: nat)
      requires i <= |setup.list|
      ensures Off(i) <= |P().all|
      ensures i < |setup.list| ==> Off(i + 1) == Off(i) + |Ddls(i)| && Off(i + 1) <= |P().all|
      ensures i < |setup.list| ==> |setup.list[i].Body()| == |Ddls(i)|
    {
      hide Ddls, Migration.Body;
      UptoPrefix(i, |setup.list|);
      if i < |setup.list| {
        UptoPrefix(i + 1, |setup.list|);
        BodyLength(i);
      }
    }

    lemma BodyLength(i: nat)
      requires i < |setup.list|
      ensures |setup.list[i].Body()| == |Ddls(i)|
    {
      hide Splitter.Statements;
    }

    function RunSql(d: Db<Schema>, sql: string): Outcome<Db<Schema>> {
      match parse(sql).Run(d.user)
      case Ok(u) => Ok(d.(user := u))
      case Err(m) => Err(setup.engine.Says(m))
    }

    /** The engine runs a migration's statements as the additive ones they parse to;
        versions are distinct; the clean run succeeds; no error of these statements
        reads like a taken version. */
    ghost predicate Valid() {
      && (forall i, d, s | 0 <= i < |setup.list| && s in setup.list[i].Body() ::
            s.User? && setup.engine.Exec(d, s) == RunSql(d, s.sql))
      && (forall i, j | 0 <= i < j < |setup.list| :: setup.list[i].version != setup.list[j].version)
      && P().Succeeds()
      && (forall p | 0 <= p < |P().all| :: !IsVersionTaken(setup.engine.Says(P().all[p].InPlaceError())))
    }

    predicate Recorded(d: Db<Schema>, i: nat)
      requires i <= |setup.list|
    {
      forall k | 0 <= k < i :: setup.list[k].version in d.versions
    }

    /** Everything before migration i is in place. */
    predicate Reached(d: Db<Schema>, p: nat)
      requires P().Succeeds()
    {
      p <= |P().all| && P().C(p) <= d.user
    }

    /** What holds of the database: a partial schema, and whatever is recorded is in place. */
    predicate DbOk(d: Db<Schema>)
      requires P().Succeeds()
    {
      && P().Partial(d.user)
      && (forall i, p | 0 <= i < |setup.list| && Off(i) <= p < Off(i + 1) && p < |P().all|
            && setup.list[i].version in d.versions :: P().Adds(p) <= d.user)
    }

    /** With the versions before i recorded, everything before migration i is in place. */
    lemma {:induction false} RecordedIsReached(d: Db<Schema>, i: nat)
      requires Valid() && DbOk(d) && i <= |setup.list| && Recorded(d, i)
      ensures Reached(d, Off(i))
      decreases i
    {
      hide Plan.C, Plan.Adds, Plan.Partial, Upto, Off, Ddls, DbOk, Reached, Valid;
      ValidSucceeds();
      if i == 0 {
        CBase(d);
      } else {
        RecordedIsReached(d, i - 1);
        OffBound(i - 1);
        forall r | Off(i - 1) <= r < Off(i) ensures P().Adds(r) <= d.user { RecordedAdds(d, i - 1, r); }
        ReachOver(d, Off(i - 1), Off(i));
      }
    }

    lemma ValidSucceeds()
      requires Valid()
      ensures P().Succeeds()
    {
    }

    lemma RecordedAdds(d: Db<Schema>, i: nat, p: nat)
      requires P().Succeeds() && DbOk(d) && i < |setup.list| && setup.list[i].version in d.versions
      requires Off(i) <= p < Off(i + 1) && p < |P().all|
      ensures P().Adds(p) <= d.user
    {
      hide Plan.Adds, Plan.Partial, Upto, Off;
    }

    lemma CBase(d: Db<Schema>)
      requires P().Succeeds() && DbOk(d)
      ensures Reached(d, Off(0))
    {
      P().CleanOk(0);
    }

    lemma {:induction false} ReachOver(d: Db<Schema>, p: nat, q: nat)
      requires P().Succeeds() && p <= q <= |P().all| && Reached(d, p)
      requires forall r | p <= r < q :: P().Adds(r) <= d.user
      ensures Reached(d, q)
      decreases q - p
    {
      hide Reached, Upto, Plan.Succeeds, Plan.Adds;
      if p < q {
        ReachOne(d, p);
        ReachOver(d, p + 1, q);
      }
    }

    lemma ReachOne(d: Db<Schema>, p: nat)
      requires P().Succeeds() && p < |P().all| && Reached(d, p) && P().Adds(p) <= d.user
      ensures Reached(d, p + 1)
    {
      hide Plan.C, Upto, Plan.Succeeds;
    }

    // ----- What one request does -----

    ghost predicate Grows(d: Db<Schema>, d': Db<Schema>) {
      d.versions <= d'.versions && d.user <= d'.user
    }

    lemma DbOkGrows(d: Db<Schema>, d': Db<Schema>)
      requires P().Succeeds() && DbOk(d) && P().Partial(d'.user) && Grows(d, d') && d.versions == d'.versions
      ensures DbOk(d')
    {
      hide Plan.Adds, Plan.Partial, Upto, Off;
    }

    lemma DbOkRecord(d: Db<Schema>, i: nat)
      requires Valid() && DbOk(d) && i < |setup.list| && Reached(d, Off(i + 1))
      ensures DbOk(d.(versions := d.versions + {setup.list[i].version}))
    {
      hide Plan.Partial, Plan.C, Upto, Off;
      var d' := d.(versions := d.versions + {setup.list[i].version});
      forall k, p | 0 <= k < |setup.list| && Off(k) <= p < Off(k + 1) && p < |P().all|
          && setup.list[k].version in d'.versions
        ensures P().Adds(p) <= d'.user
      {
        if k == i {
          P().CGrows(p + 1, Off(i + 1));
        } else {
          assert setup.list[k].version != setup.list[i].version;
        }
      }
    }

    lemma OneStep(d: Db<Schema>, p: nat)
      requires P().Succeeds() && DbOk(d) && p < |P().all| && Reached(d, p)
      ensures match P().all[p].Run(d.user)
              case Ok(u) => var d' := d.(user := u); DbOk(d') && Grows(d, d') && Reached(d', p + 1)
              case Err(m) => m == P().all[p].InPlaceError() && Reached(d, p + 1)
    {
      hide Plan.Adds, Plan.Partial, Plan.C, Upto, Off, DbOk, Ddl.Run;
      DbOkPartial(d);
      P().RunOnPartial(d.user, p);
      P().AddKeepsPartial(d.user, p);
      match P().all[p].Run(d.user)
      case Ok(u) => DbOkGrows(d, d.(user := u));
      case Err(m) => assert d.user + P().Adds(p) == d.user;
    }

    /** Statement j of migration i with everything before it in place: it leaves its
        part in place, or it was there and the error says so. */
    lemma OneStatement(d: Db<Schema>, i: nat, j: nat)
      requires Valid() && DbOk(d) && i < |setup.list| && j < |Ddls(i)| && Reached(d, Off(i) + j)
      ensures |setup.list[i].Body()| == |Ddls(i)|
      ensures match setup.engine.Exec(d, setup.list[i].Body()[j])
              case Ok(d') => DbOk(d') && Grows(d, d') && d'.versions == d.versions && Reached(d', Off(i) + j + 1)
              case Err(m) => IsIdempotentError(m) && !IsVersionTaken(m) && Reached(d, Off(i) + j + 1)
    {
      hide Upto, Off, DbOk, Ddl.Run, Ddl.InPlaceError, IsIdempotentError, IsVersionTaken, Migration.Body, Reached,
           Ddls, Plan.Clean, Grows;
      OffBound(i);
      AtPlan(i, j);
      ParsedStatement(d, i, j);
      OneStep(d, Off(i) + j);
      P().all[Off(i) + j].InPlaceErrorIsIdempotent(setup.engine.prefix, setup.engine.suffix);
    }

    lemma DbOkPartial(d: Db<Schema>)
      requires P().Succeeds() && DbOk(d)
      ensures P().Partial(d.user)
    {
    }

    lemma ParsedStatement(d: Db<Schema>, i: nat, j: nat)
      requires Valid() && i < |setup.list| && j < |Ddls(i)|
      requires |setup.list[i].Body()| == |Ddls(i)|
      requires Off(i) + j < |P().all| && P().all[Off(i) + j] == Ddls(i)[j]
      ensures setup.engine.Exec(d, setup.list[i].Body()[j])
           == match P().all[Off(i) + j].Run(d.user)
              case Ok(u) => Ok(d.(user := u))
              case Err(m) => Err(setup.engine.Says(m))
    {
      hide Valid, Upto, Off, Ddl.Run, Splitter.Statements, Engine.Exec;
      RunsAsParsed(d, i, setup.list[i].Body()[j]);
    }

    lemma {:induction false} RestOfBody(d: Db<Schema>, i: nat, j: nat)
      requires Valid() && DbOk(d) && i < |setup.list| && j <= |Ddls(i)| && Reached(d, Off(i) + j)
      ensures |setup.list[i].Body()| == |Ddls(i)|
      ensures match setup.engine.ExecAll(d, setup.list[i].Body()[j..])
              case Ok(d') => DbOk(d') && Grows(d, d') && d'.versions == d.versions && Reached(d', Off(i + 1))
              case Err(m) => IsIdempotentError(m) && !IsVersionTaken(m)
      decreases |Ddls(i)| - j
    {
      hide Valid, Reached, DbOk, Ddls, Off, Engine.Exec, Migration.Body, IsIdempotentError, IsVersionTaken;
      OffBound(i);
      var body := setup.list[i].Body();
      if j < |Ddls(i)| {
        OneStatement(d, i, j);
        assert body[j..][0] == body[j] && body[j..][1..] == body[j + 1..];
        match setup.engine.Exec(d, body[j])
        case Ok(d') => RestOfBody(d', i, j + 1);
        case Err(m) =>
      }
    }

    /** The batch of migration i, with all versions before it recorded: it is refused
        as taken, or records the migration with its schema, or says that some of its
        schema is in place and changes nothing. */
    lemma BatchConverges(d: Db<Schema>, i: nat)
      requires Valid() && DbOk(d) && i < |setup.list| && Recorded(d, i)
      ensures var (d', r) := setup.engine.Transaction(d, setup.list[i].Batch());
              && DbOk(d') && Grows(d, d')
              && !Classify(r).Fatal?
              && (Classify(r).Applied? || Classify(r).TakenByOther? ==> setup.list[i].version in d'.versions)
    {
      hide Valid, Reached, DbOk, Off, Ddls, Migration.Body, IsIdempotentError, IsVersionTaken, Recorded;
      var m := setup.list[i];
      if m.version in d.versions {
        setup.ReapplyChangesNothing(d, m);
      } else {
        RecordedIsReached(d, i);
        OffBound(i);
        BatchIsInsertThenBody(d, i);
        assert m.Body()[0..] == m.Body();
        RestOfBody(d, i, 0);
        if setup.engine.ExecAll(d, m.Body()).Ok? {
          DbOkRecord(setup.engine.ExecAll(d, m.Body()).db, i);
        }
      }
    }

    lemma RunsAsParsed(d: Db<Schema>, i: nat, s: Stmt)
      requires Valid() && i < |setup.list| && s in setup.list[i].Body()
      ensures s.User? && setup.engine.Exec(d, s) == RunSql(d, s.sql)
    {
      hide Ddl.Run, Upto, Plan.Clean, IsVersionTaken, Migration.Body, Engine.Exec;
    }

    lemma ExecIgnoresVersions(d: Db<Schema>, vs: set<string>, i: nat, s: Stmt)
      requires Valid() && i < |setup.list| && s in setup.list[i].Body()
      ensures setup.engine.Exec(d.(versions := vs), s)
           == match setup.engine.Exec(d, s) case Ok(d') => Ok(d'.(versions := vs)) case Err(m) => Err(m)
    {
      hide Ddl.Run, Valid, Migration.Body, Engine.Exec;
      RunsAsParsed(d, i, s);
      RunsAsParsed(d.(versions := vs), i, s);
    }

    /** The body does not look at the recorded versions, so it may as well run first. */
    lemma {:induction false} BodyIgnoresVersions(d: Db<Schema>, vs: set<string>, i: nat, body: seq<Stmt>)
      requires Valid() && i < |setup.list| && forall s | s in body :: s in setup.list[i].Body()
      ensures setup.engine.ExecAll(d.(versions := vs), body)
           == match setup.engine.ExecAll(d, body) case Ok(d') => Ok(d'.(versions := vs)) case Err(m) => Err(m)
      decreases body
    {
      hide Valid, Engine.Exec, Migration.Body;
      if body != [] {
        assert body[0] in body;
        ExecIgnoresVersions(d, vs, i, body[0]);
        match setup.engine.Exec(d, body[0])
        case Ok(d') => BodyIgnoresVersions(d', vs, i, body[1..]);
        case Err(m) =>
      }
    }

    lemma BatchIsInsertThenBody(d: Db<Schema>, i: nat)
      requires Valid() && i < |setup.list| && setup.list[i].version !in d.versions
      ensures var m := setup.list[i];
              setup.engine.ExecAll(d, m.Batch())
              == match setup.engine.ExecAll(d, m.Body())
                 case Ok(d') => Ok(d'.(versions := d.versions + {m.version}))
                 case Err(e) => Err(e)
    {
      hide Valid;
      var m := setup.list[i];
      assert m.Batch()[1..] == m.Body();
      BodyIgnoresVersions(d, d.versions + {m.version}, i, m.Body());
    }

    // ----- Every run -----

    /** Everything before request j of migration i's repair is in place. */
    predicate RepairOk(d: Db<Schema>, i: nat, j: nat)
      requires P().Succeeds()
    {
      i < |setup.list| && Recorded(d, i) && j <= |Ddls(i)| && Reached(d, Off(i) + j)
    }

    /** What a repair request's answer says, and what it leaves in place. */
    predicate AnswerOk(d: Db<Schema>, i: nat, j: nat, r: Reply)
      requires P().Succeeds() && i < |setup.list| && j <= |Ddls(i)|
    {
      if j < |Ddls(i)| then (r.Failed? ==> IsIdempotentError(r.msg)) && Reached(d, Off(i) + j + 1)
      else r.Done? && setup.list[i].version in d.versions
    }

    predicate NodeOk(d: Db<Schema>, x: Node)
      requires P().Succeeds()
    {
      && (x.Walking? || x.Sent? || x.Replied? || setup.Repairs(x) ==>
            && x.i <= |setup.list| && Recorded(d, x.i)
            && (forall k | 0 <= k < |setup.list| && setup.list[k].version in x.snap ::
                  setup.list[k].version in d.versions))
      && (x.Sent? || x.Replied? ==> x.i < |setup.list|)
      && (x.Replied? ==>
            && !Classify(x.reply).Fatal?
            && (Classify(x.reply).Applied? || Classify(x.reply).TakenByOther? ==>
                  setup.list[x.i].version in d.versions))
      && (setup.Repairs(x) ==> RepairOk(d, x.i, x.j))
      && (x.Told? ==> AnswerOk(d, x.i, x.j, x.reply))
      && (x.Finished? ==> Recorded(d, |setup.list|))
    }

    predicate RequestOk(d: Db<Schema>, r: Request)
      requires P().Succeeds()
    {
      match r
      case BatchOf(i) => i < |setup.list| && Recorded(d, i)
      case RepairOf(i, j) => RepairOk(d, i, j)
    }

    ghost predicate Inv(s: Sys<Schema>)
      requires P().Succeeds()
    {
      && DbOk(s.db)
      && (forall n | n in s.nodes :: NodeOk(s.db, s.nodes[n]))
      && (forall r | r in s.wire :: RequestOk(s.db, r))
    }

    lemma RequestOkGrows(d: Db<Schema>, d': Db<Schema>, r: Request)
      requires P().Succeeds() && Grows(d, d') && RequestOk(d, r)
      ensures RequestOk(d', r)
    {
      hide Plan.C, Off, Ddls;
    }

    lemma NodeOkGrows(d: Db<Schema>, d': Db<Schema>, x: Node)
      requires P().Succeeds() && Grows(d, d') && NodeOk(d, x)
      ensures NodeOk(d', x)
    {
      hide Plan.C, Off, Ddls, Classify;
    }

    /** The database moves on under everyone. */
    lemma DbMoves(s: Sys<Schema>, d: Db<Schema>)
      requires P().Succeeds() && Inv(s) && DbOk(d) && Grows(s.db, d)
      ensures Inv(s.(db := d))
    {
      hide NodeOk, DbOk, RequestOk;
      forall n | n in s.nodes ensures NodeOk(d, s.nodes[n]) { NodeOkGrows(s.db, d, s.nodes[n]); }
      forall r | r in s.wire ensures RequestOk(d, r) { RequestOkGrows(s.db, d, r); }
    }

    lemma PutKeeps(s: Sys<Schema>, n: nat, x: Node)
      requires P().Succeeds() && Inv(s) && NodeOk(s.db, x)
      ensures Inv(setup.Put(s, n, x))
    {
      hide NodeOk, DbOk;
    }

    lemma OrphanKeeps(s: Sys<Schema>, n: nat, sentAnyway: bool)
      requires P().Succeeds() && Inv(s)
      ensures Inv(setup.Orphan(s, n, sentAnyway))
    {
      hide DbOk, Classify, RepairOk;
      NodeOkOf(s, n);
    }

    lemma NodeOkOf(s: Sys<Schema>, n: nat)
      requires P().Succeeds() && Inv(s)
      ensures NodeOk(s.db, NodeOf(s, n))
    {
      hide DbOk, Classify, Reached;
    }

    lemma FireKeeps(s: Sys<Schema>, i: nat)
      requires Valid() && P().Succeeds() && Inv(s) && i < |setup.list| && Recorded(s.db, i)
      ensures Inv(setup.Fire(s, i)) && Grows(s.db, setup.Fire(s, i).db)
      ensures var r := setup.engine.Transaction(s.db, setup.list[i].Batch()).1;
              && !Classify(r).Fatal?
              && (Classify(r).Applied? || Classify(r).TakenByOther? ==>
                    setup.list[i].version in setup.Fire(s, i).db.versions)
    {
      hide Valid, DbOk, NodeOk, RequestOk, Classify, Recorded, Migration.Batch, Engine.Transaction;
      BatchConverges(s.db, i);
      var (d, r) := setup.engine.Transaction(s.db, setup.list[i].Batch());
      DbMoves(s, d);
      IgnoreLog(s.(db := d), setup.Fire(s, i).log);
    }

    lemma IgnoreLog(s: Sys<Schema>, log: seq<nat>)
      requires P().Succeeds() && Inv(s)
      ensures Inv(s.(log := log))
    {
      hide DbOk, NodeOk, RequestOk;
    }

    lemma AnsweredKeeps(s: Sys<Schema>, n: nat, x: Node)
      requires Valid() && P().Succeeds() && Inv(s) && x.Sent? && NodeOk(s.db, x)
      ensures Inv(setup.Answered(s, n, x))
    {
      hide Valid, Inv, Classify, Migration.Batch, Engine.Transaction, Reached, Recorded, Ddls, Off;
      FireKeeps(s, x.i);
      var t := setup.Fire(s, x.i);
      NodeOkGrows(s.db, t.db, x);
      PutKeeps(t, n, Replied(x.snap, x.i, setup.engine.Transaction(s.db, setup.list[x.i].Batch()).1));
    }

    lemma LateKeeps(s: Sys<Schema>, r: Request)
      requires Valid() && P().Succeeds() && Inv(s) && r in s.wire && setup.Legal(r)
      ensures Inv(setup.Serve(s, r).(wire := s.wire - multiset{r}))
    {
      hide Valid, Inv, Setup.Fire, Setup.FireRepair, NodeOk;
      WireOk(s, r);
      if r.BatchOf? {
        FireKeeps(s, r.i);
      } else {
        RepairServed(s, r.i, r.j);
      }
      WireShrinks(setup.Serve(s, r), r);
      ServeWire(s, r);
    }

    lemma ServeWire(s: Sys<Schema>, r: Request)
      requires setup.Legal(r)
      ensures setup.Serve(s, r).wire == s.wire && setup.Serve(s, r).nodes == s.nodes
    {
      hide Migration.Batch, Migration.Body, Engine.Transaction;
    }

    lemma WireOk(s: Sys<Schema>, r: Request)
      requires P().Succeeds() && Inv(s) && r in s.wire
      ensures RequestOk(s.db, r)
    {
      hide DbOk, NodeOk, RequestOk;
    }

    lemma WireShrinks(s: Sys<Schema>, r: Request)
      requires P().Succeeds() && Inv(s)
      ensures Inv(s.(wire := s.wire - multiset{r}))
    {
      hide DbOk, NodeOk, RequestOk;
    }

    /** A repair request, on time or late: the database grows, and the request's part is
        in place or the version recorded. */
    lemma RepairServed(s: Sys<Schema>, i: nat, j: nat)
      requires Valid() && P().Succeeds() && Inv(s) && RepairOk(s.db, i, j) && setup.Legal(RepairOf(i, j))
      ensures var t := setup.FireRepair(s, i, j);
              && Inv(t) && Grows(s.db, t.db)
              && AnswerOk(t.db, i, j, setup.engine.Transaction(s.db, setup.RepairStmts(i, j)).1)
    {
      hide Valid, Inv, DbOk, Reached, Recorded, Ddls, Off, Migration.Body, Engine.Exec, Engine.Transaction,
           IsIdempotentError, IsVersionTaken;
      OffBound(i);
      InvDb(s);
      var stmts := setup.RepairStmts(i, j);
      SingleTransaction(s.db, stmts[0]);
      if j < |Ddls(i)| {
        OneStatement(s.db, i, j);
      } else {
        Recording(s.db, i);
        DbOkRecord(s.db, i);
      }
      DbMoves(s, setup.engine.Transaction(s.db, stmts).0);
    }

    lemma Recording(d: Db<Schema>, i: nat)
      requires i < |setup.list|
      ensures setup.engine.Exec(d, InsertOrIgnoreVersion(setup.list[i].version))
           == Ok(d.(versions := d.versions + {setup.list[i].version}))
    {
    }

    lemma MendedKeeps(s: Sys<Schema>, n: nat, x: Node)
      requires Valid() && P().Succeeds() && Inv(s) && NodeOk(s.db, x) && x.Asked? && setup.Legal(RepairOf(x.i, x.j))
      ensures Inv(setup.Mended(s, n, x))
    {
      hide Valid, Inv, DbOk, Classify, Reached, Recorded, Ddls, Off, Setup.RepairStmts, Engine.Transaction, AnswerOk;
      RepairServed(s, x.i, x.j);
      var t := setup.FireRepair(s, x.i, x.j);
      NodeOkGrows(s.db, t.db, x);
      PutKeeps(t, n, Told(x.snap, x.i, x.j, setup.engine.Transaction(s.db, setup.RepairStmts(x.i, x.j)).1));
    }

    /** The answer sends the node on, never to an error. */
    lemma HeardRepairKeeps(s: Sys<Schema>, x: Node)
      requires Valid() && P().Succeeds() && Inv(s) && NodeOk(s.db, x) && x.Told? && setup.Legal(RepairOf(x.i, x.j))
      ensures NodeOk(s.db, setup.HeardRepair(x))
      ensures setup.HeardRepair(x) ==
              if x.j < |setup.list[x.i].Body()| then Repairing(x.snap, x.i, x.j + 1) else Walking(x.snap, x.i + 1)
    {
      hide Valid, Inv, DbOk, Reached, Ddls, Off, Migration.Body, IsIdempotentError;
      OffBound(x.i);
    }

    lemma InvDb(s: Sys<Schema>)
      requires P().Succeeds() && Inv(s)
      ensures DbOk(s.db)
    {
    }

    lemma SingleTransaction(d: Db<Schema>, stmt: Stmt)
      ensures setup.engine.Transaction(d, [stmt])
           == match setup.engine.Exec(d, stmt) case Ok(d') => (d', Done) case Err(m) => (d, Failed(m))
    {
      hide Engine.Exec;
      assert [stmt][1..] == [];
      match setup.engine.Exec(d, stmt)
      case Ok(d') => assert setup.engine.ExecAll(d', []) == Ok(d');
      case Err(m) =>
    }

    lemma HeardKeeps(s: Sys<Schema>, n: nat, x: Node)
      requires Valid() && P().Succeeds() && Inv(s) && NodeOk(s.db, x) && x.Replied?
      ensures NodeOk(s.db, setup.Heard(x)) && !setup.Heard(x).Stopped?
    {
      hide Valid, DbOk, Plan.C, Upto;
      InvDb(s);
      RecordedIsReached(s.db, x.i);
    }

    /** What the server's steps need and do, spelled out. */
    lemma ServerStepIs(s: Sys<Schema>, a: Action)
      requires setup.Enabled(s, a) && (a.Execute? || a.ExecuteLate? || a.Mend?)
      ensures a.ExecuteLate? ==>
              a.r in s.wire && setup.Legal(a.r)
              && setup.Do(s, a) == setup.Serve(s, a.r).(wire := s.wire - multiset{a.r})
      ensures a.Execute? ==>
              var x := NodeOf(s, a.n);
              x.Sent? && x.i < |setup.list| && setup.Do(s, a) == setup.Answered(s, a.n, x)
      ensures a.Mend? ==>
              var x := NodeOf(s, a.n);
              x.Asked? && setup.Legal(RepairOf(x.i, x.j)) && setup.Do(s, a) == setup.Mended(s, a.n, x)
    {
      hide Setup.Serve, Setup.Answered, Setup.Mended, Setup.Legal;
    }

    lemma ServerStepKeeps(s: Sys<Schema>, a: Action)
      requires Valid() && P().Succeeds() && Inv(s) && setup.Enabled(s, a)
      requires a.Execute? || a.ExecuteLate? || a.Mend?
      ensures Inv(setup.Do(s, a))
    {
      hide *;
      ServerStepIs(s, a);
      if a.ExecuteLate? {
        LateKeeps(s, a.r);
      } else if a.Execute? {
        NodeOkOf(s, a.n);
        AnsweredKeeps(s, a.n, NodeOf(s, a.n));
      } else {
        NodeOkOf(s, a.n);
        MendedKeeps(s, a.n, NodeOf(s, a.n));
      }
    }

    /** What starts, crashes and lost replies do, spelled out. */
    lemma FaultStepIs(s: Sys<Schema>, a: Action)
      requires setup.Enabled(s, a) && (a.Boot? || a.Crash? || a.LoseReply?)
      ensures a.Boot? ==> setup.Do(s, a) == setup.Put(s, a.n, Walking(s.db.versions, 0))
      ensures a.Crash? ==> setup.Do(s, a) == setup.Put(setup.Orphan(s, a.n, a.sentAnyway), a.n, Idle)
      ensures a.LoseReply? ==> setup.Do(s, a) == setup.Put(setup.Orphan(s, a.n, a.sentAnyway), a.n, Stopped(a.msg))
    {
      hide Setup.Put, Setup.Orphan;
    }

    lemma FaultStepKeeps(s: Sys<Schema>, a: Action)
      requires Valid() && P().Succeeds() && Inv(s) && setup.Enabled(s, a)
      requires a.Boot? || a.Crash? || a.LoseReply?
      ensures Inv(setup.Do(s, a))
    {
      hide *;
      FaultStepIs(s, a);
      if a.Boot? {
        FreshNode(s);
        PutKeeps(s, a.n, Walking(s.db.versions, 0));
      } else {
        OrphanKeeps(s, a.n, a.sentAnyway);
        var t := setup.Orphan(s, a.n, a.sentAnyway);
        IdleNode(t, if a.LoseReply? then a.msg else "");
        PutKeeps(t, a.n, if a.LoseReply? then Stopped(a.msg) else Idle);
      }
    }

    /** What the steps of a walking or waiting node need and do, spelled out. */
    lemma WalkStepIs(s: Sys<Schema>, a: Action)
      requires setup.Enabled(s, a) && (a.Receive? || a.Skip? || a.Send? || a.Finish?)
      ensures var x := NodeOf(s, a.n); if a.Receive? then x.Replied? else x.Walking?
      ensures var x := NodeOf(s, a.n);
              && (a.Skip? ==> x.i < |setup.list| && setup.list[x.i].version in x.snap
                              && setup.Do(s, a) == setup.Put(s, a.n, Walking(x.snap, x.i + 1)))
              && (a.Send? ==> x.i < |setup.list| && setup.Do(s, a) == setup.Put(s, a.n, Sent(x.snap, x.i)))
              && (a.Finish? ==> x.i == |setup.list| && setup.Do(s, a) == setup.Put(s, a.n, Finished))
              && (a.Receive? ==> setup.Do(s, a) == setup.Put(s, a.n, setup.Heard(x)))
    {
      hide Setup.Put, Setup.Heard;
    }

    lemma WalkStepKeeps(s: Sys<Schema>, a: Action)
      requires Valid() && P().Succeeds() && Inv(s) && setup.Enabled(s, a)
      requires a.Receive? || a.Skip? || a.Send? || a.Finish?
      ensures Inv(setup.Do(s, a))
    {
      hide *;
      WalkStepIs(s, a);
      NodeOkOf(s, a.n);
      var x := NodeOf(s, a.n);
      if a.Receive? {
        HeardKeeps(s, a.n, x);
        PutKeeps(s, a.n, setup.Heard(x));
      } else {
        SkipNode(s, x);
        PutKeeps(s, a.n, if a.Skip? then Walking(x.snap, x.i + 1) else if a.Send? then Sent(x.snap, x.i) else Finished);
      }
    }

    lemma RepairStepIs(s: Sys<Schema>, a: Action)
      requires setup.Enabled(s, a) && (a.Ask? || a.Hear?)
      ensures var x := NodeOf(s, a.n);
              && setup.Legal(RepairOf(x.i, x.j))
              && (a.Ask? ==> x.Repairing? && setup.Do(s, a) == setup.Put(s, a.n, Asked(x.snap, x.i, x.j)))
              && (a.Hear? ==> x.Told? && setup.Do(s, a) == setup.Put(s, a.n, setup.HeardRepair(x)))
    {
      hide Setup.Put, Setup.HeardRepair, Setup.Legal;
    }

    lemma AskedOk(s: Sys<Schema>, x: Node)
      requires P().Succeeds() && NodeOk(s.db, x) && x.Repairing?
      ensures NodeOk(s.db, Asked(x.snap, x.i, x.j))
    {
      hide RepairOk, Recorded;
    }

    lemma RepairStepKeeps(s: Sys<Schema>, a: Action)
      requires Valid() && P().Succeeds() && Inv(s) && setup.Enabled(s, a) && (a.Ask? || a.Hear?)
      ensures Inv(setup.Do(s, a))
    {
      hide *;
      RepairStepIs(s, a);
      NodeOkOf(s, a.n);
      var x := NodeOf(s, a.n);
      if a.Ask? {
        AskedOk(s, x);
        PutKeeps(s, a.n, Asked(x.snap, x.i, x.j));
      } else {
        HeardRepairKeeps(s, x);
        PutKeeps(s, a.n, setup.HeardRepair(x));
      }
    }

    lemma StepKeeps(s: Sys<Schema>, a: Action)
      requires Valid() && P().Succeeds() && Inv(s) && setup.Enabled(s, a)
      ensures Inv(setup.Do(s, a))
    {
      hide *;
      if a.Execute? || a.ExecuteLate? || a.Mend? {
        ServerStepKeeps(s, a);
      } else if a.Ask? || a.Hear? {
        RepairStepKeeps(s, a);
      } else if a.Boot? || a.Crash? || a.LoseReply? {
        FaultStepKeeps(s, a);
      } else {
        WalkStepKeeps(s, a);
      }
    }

    /** Only a lost reply makes a run return an error. */
    lemma OnlyLostRepliesStop(s: Sys<Schema>, a: Action, m: nat)
      requires Valid() && P().Succeeds() && Inv(s) && setup.Enabled(s, a) && !a.LoseReply?
      requires NodeOf(setup.Do(s, a), m).Stopped?
      ensures NodeOf(s, m).Stopped?
    {
      hide *;
      if a.ExecuteLate? || a.Execute? || a.Mend? {
        ServerStepIs(s, a);
        ServerStopsNone(s, a, m);
      } else if a.Boot? || a.Crash? {
        FaultStepIs(s, a);
        CrashStopsNone(s, a, m);
      } else if a.Ask? || a.Hear? {
        RepairStepIs(s, a);
        NodeOkOf(s, a.n);
        var x := NodeOf(s, a.n);
        if a.Hear? { HeardRepairKeeps(s, x); }
        PutStopsNone(s, a.n, if a.Ask? then Asked(x.snap, x.i, x.j) else setup.HeardRepair(x), m);
      } else {
        WalkStepIs(s, a);
        NodeOkOf(s, a.n);
        var x := NodeOf(s, a.n);
        if a.Receive? { HeardKeeps(s, a.n, x); }
        PutStopsNone(s, a.n, if a.Skip? then Walking(x.snap, x.i + 1) else if a.Send? then Sent(x.snap, x.i)
                             else if a.Finish? then Finished else setup.Heard(x), m);
      }
    }

    lemma PutStopsNone(s: Sys<Schema>, n: nat, x: Node, m: nat)
      requires !x.Stopped? && NodeOf(setup.Put(s, n, x), m).Stopped?
      ensures NodeOf(s, m).Stopped?
    {
    }

    lemma CrashStopsNone(s: Sys<Schema>, a: Action, m: nat)
      requires a.Boot? || a.Crash?
      ensures (a.Boot? && NodeOf(setup.Put(s, a.n, Walking(s.db.versions, 0)), m).Stopped?) ==> NodeOf(s, m).Stopped?
      ensures (a.Crash? && NodeOf(setup.Put(setup.Orphan(s, a.n, a.sentAnyway), a.n, Idle), m).Stopped?) ==>
                NodeOf(s, m).Stopped?
    {
    }

    lemma ServerStopsNone(s: Sys<Schema>, a: Action, m: nat)
      requires a.ExecuteLate? || a.Execute? || a.Mend?
      ensures (a.ExecuteLate? && setup.Legal(a.r) && a.r in s.wire &&
               NodeOf(setup.Serve(s, a.r).(wire := s.wire - multiset{a.r}), m).Stopped?) ==> NodeOf(s, m).Stopped?
      ensures var x := if a.ExecuteLate? then Idle else NodeOf(s, a.n);
              (a.Execute? && x.Sent? && x.i < |setup.list| && NodeOf(setup.Answered(s, a.n, x), m).Stopped?) ==>
                NodeOf(s, m).Stopped?
      ensures var x := if a.ExecuteLate? then Idle else NodeOf(s, a.n);
              (a.Mend? && x.Asked? && setup.Legal(RepairOf(x.i, x.j)) &&
               NodeOf(setup.Mended(s, a.n, x), m).Stopped?) ==> NodeOf(s, m).Stopped?
    {
      hide Engine.Transaction, Migration.Batch, Migration.Body;
    }

    lemma FreshNode(s: Sys<Schema>)
      requires P().Succeeds() && Inv(s)
      ensures NodeOk(s.db, Walking(s.db.versions, 0))
    {
    }

    lemma IdleNode(s: Sys<Schema>, msg: string)
      requires P().Succeeds() && Inv(s)
      ensures NodeOk(s.db, Idle) && NodeOk(s.db, Stopped(msg))
    {
    }

    lemma SkipNode(s: Sys<Schema>, x: Node)
      requires P().Succeeds() && NodeOk(s.db, x) && x.Walking?
      ensures x.i < |setup.list| && setup.list[x.i].version in x.snap ==> NodeOk(s.db, Walking(x.snap, x.i + 1))
      ensures x.i < |setup.list| ==> NodeOk(s.db, Sent(x.snap, x.i))
      ensures x.i == |setup.list| ==> NodeOk(s.db, Finished)
    {
      hide Plan.C, Off, Ddls, Reached, DbOk, Classify, Plan.Succeeds;
    }

    /** Convergence: from a database with any part of the additions in place and any
        versions recorded whose additions are, under every interleaving of applies,
        repairs, crashes, restarts, lost replies and late requests of either, the schema stays
        between the base and the clean one and a recorded migration's additions stay
        in place; and when any run returns without error, every version is recorded
        and the schema is that of a clean run. */
    lemma {:induction false} EveryRunConverges(s: Sys<Schema>, acts: seq<Action>)
      requires Valid() && P().Succeeds() && Inv(s) && setup.Runs(s, acts)
      ensures var t := setup.End(s, acts);
              && DbOk(t.db)
              && forall n | n in t.nodes && t.nodes[n].Finished? ::
                   Recorded(t.db, |setup.list|) && t.db.user == P().C(|P().all|)
      decreases acts
    {
      hide Valid, Inv, DbOk, Setup.Do, Setup.Enabled, Plan.C, Off, Upto, Recorded, NodeOk;
      if acts == [] {
        InvDb(s);
        forall n | n in s.nodes && s.nodes[n].Finished?
          ensures Recorded(s.db, |setup.list|) && s.db.user == P().C(|P().all|)
        {
          NodeOkOf(s, n);
          FinishedIsFull(s, n);
        }
      } else {
        StepKeeps(s, acts[0]);
        EveryRunConverges(setup.Do(s, acts[0]), acts[1..]);
      }
    }

    lemma FinishedIsFull(s: Sys<Schema>, n: nat)
      requires Valid() && P().Succeeds() && Inv(s) && NodeOf(s, n).Finished? && NodeOk(s.db, NodeOf(s, n))
      ensures Recorded(s.db, |setup.list|) && s.db.user == P().C(|P().all|)
    {
      hide Valid, DbOk, Plan.C, Upto;
      InvDb(s);
      RecordedIsReached(s.db, |setup.list|);
      DbOkPartial(s.db);
      P().FullIsClean(s.db.user);
    }

    lemma StartKeeps(d: Db<Schema>)
      requires Valid() && P().Succeeds() && DbOk(d)
      ensures Inv(Sys(d, map[], multiset{}, []))
    {
    }

    /** From any database with part of the additions in place and any versions recorded
        whose additions are: in every run, a node that finishes leaves every version
        recorded and the schema of a clean run. */
    lemma StartConverges(d: Db<Schema>, acts: seq<Action>)
      requires Valid() && P().Succeeds() && DbOk(d) && setup.Runs(Sys(d, map[], multiset{}, []), acts)
      ensures var t := setup.End(Sys(d, map[], multiset{}, []), acts);
              && DbOk(t.db)
              && forall n | n in t.nodes && t.nodes[n].Finished? ::
                   Recorded(t.db, |setup.list|) && t.db.user == P().C(|P().all|)
    {
      hide *;
      StartKeeps(d);
      EveryRunConverges(Sys(d, map[], multiset{}, []), acts);
    }

    // ----- Repair comes to an end -----

    /** A repairing node finishes its repair by steps of its own, three for each request. */
    lemma {:induction false} RepairEnds(s: Sys<Schema>, n: nat) returns (acts: seq<Action>)
      requires Valid() && P().Succeeds() && Inv(s) && NodeOf(s, n).Repairing?
      ensures setup.Runs(s, acts) && Inv(setup.End(s, acts))
      ensures NodeOf(setup.End(s, acts), n) == Walking(NodeOf(s, n).snap, NodeOf(s, n).i + 1)
      ensures forall a | a in acts :: OwnStep(a, n)
      decreases RepairLeft(NodeOf(s, n))
    {
      hide *;
      var t := AskRepair(s, n);
      acts := [Ask(n), Mend(n), Hear(n)];
      if NodeOf(t, n).Repairing? {
        LeftShrinks(NodeOf(s, n), NodeOf(t, n));
        var rest := RepairEnds(t, n);
        setup.RunsConcat(s, acts, rest);
        acts := acts + rest;
      }
      OwnSteps(n);
    }

    lemma LeftShrinks(x: Node, y: Node)
      requires x.Repairing? && setup.Legal(RepairOf(x.i, x.j)) && x.j < |setup.list[x.i].Body()|
      requires y == Repairing(x.snap, x.i, x.j + 1)
      ensures RepairLeft(y) < RepairLeft(x)
    {
      hide Migration.Body;
    }

    /** One request of a repair, sent, run and heard. */
    lemma AskRepair(s: Sys<Schema>, n: nat) returns (t: Sys<Schema>)
      requires Valid() && P().Succeeds() && Inv(s) && NodeOf(s, n).Repairing?
      ensures setup.Runs(s, [Ask(n), Mend(n), Hear(n)]) && t == setup.End(s, [Ask(n), Mend(n), Hear(n)])
      ensures Inv(t) && setup.Legal(RepairOf(NodeOf(s, n).i, NodeOf(s, n).j))
      ensures var x := NodeOf(s, n);
              NodeOf(t, n) == if x.j < |setup.list[x.i].Body()| then Repairing(x.snap, x.i, x.j + 1)
                              else Walking(x.snap, x.i + 1)
    {
      hide *;
      RepairingLegal(s, n);
      DoAsk(s, n);
      var s1 := setup.Do(s, Ask(n));
      StepKeeps(s, Ask(n));
      DoMend(s1, n);
      var s2 := setup.Do(s1, Mend(n));
      StepKeeps(s1, Mend(n));
      NodeOkOf(s2, n);
      DoHear(s2, n);
      HeardRepairKeeps(s2, NodeOf(s2, n));
      t := setup.Do(s2, Hear(n));
      StepKeeps(s2, Hear(n));
      setup.ThreeActions(s, Ask(n), Mend(n), Hear(n));
    }

    lemma DoAsk(s: Sys<Schema>, n: nat)
      requires NodeOf(s, n).Repairing? && setup.Legal(RepairOf(NodeOf(s, n).i, NodeOf(s, n).j))
      ensures setup.Enabled(s, Ask(n))
      ensures var x := NodeOf(s, n); NodeOf(setup.Do(s, Ask(n)), n) == Asked(x.snap, x.i, x.j)
    {
      hide Setup.Legal;
    }

    lemma DoMend(s: Sys<Schema>, n: nat)
      requires NodeOf(s, n).Asked? && setup.Legal(RepairOf(NodeOf(s, n).i, NodeOf(s, n).j))
      ensures setup.Enabled(s, Mend(n))
      ensures var x := NodeOf(s, n); var y := NodeOf(setup.Do(s, Mend(n)), n);
              y.Told? && y.snap == x.snap && y.i == x.i && y.j == x.j
    {
      hide Setup.FireRepair, Setup.Legal, Engine.Transaction, Setup.RepairStmts;
    }

    lemma DoHear(s: Sys<Schema>, n: nat)
      requires NodeOf(s, n).Told? && setup.Legal(RepairOf(NodeOf(s, n).i, NodeOf(s, n).j))
      ensures setup.Enabled(s, Hear(n))
      ensures NodeOf(setup.Do(s, Hear(n)), n) == setup.HeardRepair(NodeOf(s, n))
    {
      hide Setup.HeardRepair, Setup.Legal;
    }

    lemma OwnSteps(n: nat)
      ensures OwnStep(Skip(n), n) && OwnStep(Send(n), n) && OwnStep(Execute(n), n) && OwnStep(Receive(n), n)
      ensures OwnStep(Ask(n), n) && OwnStep(Mend(n), n) && OwnStep(Hear(n), n) && OwnStep(Finish(n), n)
    {
    }

    function RepairLeft(x: Node): nat {
      if x.Repairing? && x.i < |setup.list| && x.j <= |setup.list[x.i].Body()|
      then |setup.list[x.i].Body()| - x.j else 0
    }

    lemma RepairingLegal(s: Sys<Schema>, n: nat)
      requires P().Succeeds() && Inv(s) && NodeOf(s, n).Repairing?
      ensures setup.Legal(RepairOf(NodeOf(s, n).i, NodeOf(s, n).j))
    {
      hide DbOk, Reached, Recorded, Migration.Body, Ddls;
      NodeOkOf(s, n);
      OffBound(NodeOf(s, n).i);
    }

    lemma AskServer(s: Sys<Schema>, n: nat) returns (t: Sys<Schema>)
      requires Valid() && P().Succeeds() && Inv(s) && NodeOf(s, n).Walking? && NodeOf(s, n).i < |setup.list|
      requires setup.list[NodeOf(s, n).i].version !in NodeOf(s, n).snap
      ensures setup.Runs(s, [Send(n), Execute(n), Receive(n)]) && t == setup.End(s, [Send(n), Execute(n), Receive(n)])
      ensures Inv(t)
      ensures var x := NodeOf(s, n);
              NodeOf(t, n) == Walking(x.snap, x.i + 1) || NodeOf(t, n) == Repairing(x.snap, x.i, 0)
    {
      hide *;
      var x := NodeOf(s, n);
      DoSend(s, n);
      var s1 := setup.Do(s, Send(n));
      StepKeeps(s, Send(n));
      DoExecute(s1, n);
      var s2 := setup.Do(s1, Execute(n));
      StepKeeps(s1, Execute(n));
      DoReceive(s2, n);
      t := setup.Do(s2, Receive(n));
      StepKeeps(s2, Receive(n));
      setup.ThreeActions(s, Send(n), Execute(n), Receive(n));
    }

    lemma DoSend(s: Sys<Schema>, n: nat)
      requires NodeOf(s, n).Walking? && NodeOf(s, n).i < |setup.list|
      requires setup.list[NodeOf(s, n).i].version !in NodeOf(s, n).snap
      ensures setup.Enabled(s, Send(n))
      ensures NodeOf(setup.Do(s, Send(n)), n) == Sent(NodeOf(s, n).snap, NodeOf(s, n).i)
    {
    }

    lemma DoExecute(s: Sys<Schema>, n: nat)
      requires NodeOf(s, n).Sent? && NodeOf(s, n).i < |setup.list|
      ensures setup.Enabled(s, Execute(n))
      ensures var y := NodeOf(setup.Do(s, Execute(n)), n);
              y.Replied? && y.snap == NodeOf(s, n).snap && y.i == NodeOf(s, n).i
    {
      hide Setup.Fire, Engine.Transaction, Migration.Batch;
    }

    lemma DoReceive(s: Sys<Schema>, n: nat)
      requires Valid() && P().Succeeds() && Inv(s) && NodeOf(s, n).Replied?
      ensures setup.Enabled(s, Receive(n))
      ensures var x := NodeOf(s, n); var y := NodeOf(setup.Do(s, Receive(n)), n);
              y == Walking(x.snap, x.i + 1) || y == Repairing(x.snap, x.i, 0)
    {
      hide *;
      NotFatal(s, n);
      HeardShape(NodeOf(s, n));
      ReceiveIsHeard(s, n);
    }

    lemma NotFatal(s: Sys<Schema>, n: nat)
      requires P().Succeeds() && Inv(s) && NodeOf(s, n).Replied?
      ensures !Classify(NodeOf(s, n).reply).Fatal?
    {
      hide DbOk, Reached, Recorded, Classify, Upto, Off, Ddls;
      NodeOkOf(s, n);
    }

    lemma HeardShape(x: Node)
      requires x.Replied? && !Classify(x.reply).Fatal?
      ensures var y := setup.Heard(x); y == Walking(x.snap, x.i + 1) || y == Repairing(x.snap, x.i, 0)
    {
      hide Classify;
    }

    lemma ReceiveIsHeard(s: Sys<Schema>, n: nat)
      requires NodeOf(s, n).Replied?
      ensures setup.Enabled(s, Receive(n)) && NodeOf(setup.Do(s, Receive(n)), n) == setup.Heard(NodeOf(s, n))
    {
      hide Setup.Heard, Classify;
    }

    /** A walking node gets over its next migration: skipping, applying, finding it
        taken, or repairing it. */
    lemma WalkOne(s: Sys<Schema>, n: nat) returns (acts: seq<Action>)
      requires Valid() && P().Succeeds() && Inv(s) && NodeOf(s, n).Walking? && NodeOf(s, n).i < |setup.list|
      ensures setup.Runs(s, acts) && Inv(setup.End(s, acts))
      ensures NodeOf(setup.End(s, acts), n) == Walking(NodeOf(s, n).snap, NodeOf(s, n).i + 1)
      ensures forall a | a in acts :: OwnStep(a, n)
    {
      hide *;
      OwnSteps(n);
      if setup.list[NodeOf(s, n).i].version in NodeOf(s, n).snap {
        DoSkip(s, n);
        StepKeeps(s, Skip(n));
        setup.OneAction(s, Skip(n));
        acts := [Skip(n)];
      } else {
        var t := AskServer(s, n);
        var three := [Send(n), Execute(n), Receive(n)];
        if NodeOf(t, n).Repairing? {
          var rest := RepairEnds(t, n);
          setup.RunsConcat(s, three, rest);
          acts := three + rest;
        } else {
          acts := three;
        }
      }
    }

    lemma DoSkip(s: Sys<Schema>, n: nat)
      requires NodeOf(s, n).Walking? && NodeOf(s, n).i < |setup.list|
      requires setup.list[NodeOf(s, n).i].version in NodeOf(s, n).snap
      ensures setup.Enabled(s, Skip(n))
      ensures NodeOf(setup.Do(s, Skip(n)), n) == Walking(NodeOf(s, n).snap, NodeOf(s, n).i + 1)
    {
    }

    predicate OwnStep(a: Action, n: nat) {
      a in {Skip(n), Send(n), Execute(n), Receive(n), Ask(n), Mend(n), Hear(n), Finish(n)}
    }

    /** Whatever the others have done and left, a walking node finishes by finitely
        many steps of its own, and then everything is recorded and in place. */
    lemma {:induction false} EveryNodeCanFinish(s: Sys<Schema>, n: nat) returns (acts: seq<Action>)
      requires Valid() && P().Succeeds() && Inv(s) && NodeOf(s, n).Walking?
      ensures setup.Runs(s, acts) && forall a | a in acts :: OwnStep(a, n)
      ensures var t := setup.End(s, acts);
              NodeOf(t, n).Finished? && Recorded(t.db, |setup.list|) && t.db.user == P().C(|P().all|)
      decreases |setup.list| - NodeOf(s, n).i
    {
      hide Valid, Inv, NodeOk, Setup.Do, Setup.Enabled, Recorded, Plan.C, Upto;
      WalkingBound(s, n);
      if NodeOf(s, n).i < |setup.list| {
        var first := WalkOne(s, n);
        var t := setup.End(s, first);
        WalkingBound(t, n);
        var rest := EveryNodeCanFinish(t, n);
        setup.RunsConcat(s, first, rest);
        acts := first + rest;
      } else {
        acts := [Finish(n)];
        FinishNow(s, n);
      }
    }

    lemma WalkingBound(s: Sys<Schema>, n: nat)
      requires P().Succeeds() && Inv(s) && NodeOf(s, n).Walking?
      ensures NodeOf(s, n).i <= |setup.list|
    {
      hide DbOk, Reached;
      NodeOkOf(s, n);
    }

    lemma FinishNow(s: Sys<Schema>, n: nat)
      requires Valid() && P().Succeeds() && Inv(s) && NodeOf(s, n).Walking? && NodeOf(s, n).i == |setup.list|
      ensures setup.Runs(s, [Finish(n)])
      ensures var t := setup.End(s, [Finish(n)]);
              NodeOf(t, n).Finished? && Recorded(t.db, |setup.list|) && t.db.user == P().C(|P().all|)
    {
      hide Valid, Inv, NodeOk, Recorded, Plan.C, Upto;
      StepKeeps(s, Finish(n));
      setup.OneAction(s, Finish(n));
      var t := setup.Do(s, Finish(n));
      NodeOkOf(t, n);
      FinishedIsFull(t, n);
    }
  }
}
