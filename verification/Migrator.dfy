/** The schema migrator (migrator.go): one node's run over the sorted migrations,
    through the buffering driver. */
module Migrator {
  import opened Database
  import Driver
  import Splitter

  datatype Migration = Migration(version: string, name: string, sql: string) {
    /** The migration's own statements. */
    function Body(): seq<Stmt> {
      var stmts := Splitter.Statements(sql);
      seq(|stmts|, i requires 0 <= i < |stmts| => User(stmts[i]))
    }

    /** The transaction that applies it: its version is recorded first. */
    function Batch(): seq<Stmt> { [InsertVersion(version)] + Body() }
  }

  /** The statements of a migration are those of its text, each once and in order. */
  lemma BodyExactly(m: Migration)
    ensures |m.Body()| == |Splitter.Statements(m.sql)|
    ensures forall i | 0 <= i < |m.Body()| :: m.Body()[i] == User(Splitter.Statements(m.sql)[i])
  {
    hide Splitter.Statements;
  }

  // ----- What the steps do to the database -----

  /** How Run reads the answer of apply; the first test that holds decides. */
  datatype Verdict = Applied | TakenByOther | InPlace | Fatal(msg: string)

  function Classify(r: Reply): Verdict {
    match r
    case Done => Applied
    case Failed(m) =>
      if IsVersionTaken(m) then TakenByOther
      else if IsIdempotentError(m) then InPlace
      else Fatal(m)
  }

  /** The statements of repair from one on: what is in place already is skipped. */
  function RepairBody<U>(e: Engine<U>, db: Db<U>, body: seq<Stmt>): (Db<U>, Reply)
    decreases body
  {
    if body == [] then (db, Done)
    else
      var (d, r) := e.Transaction(db, [body[0]]);
      if r.Failed? && !IsIdempotentError(r.msg) then (d, r) else RepairBody(e, d, body[1..])
  }

  function Repaired<U>(e: Engine<U>, db: Db<U>, m: Migration): (Db<U>, Reply) {
    var (d, r) := RepairBody(e, db, m.Body());
    if r.Failed? then (d, r) else e.Transaction(d, [InsertOrIgnoreVersion(m.version)])
  }

  /** Run from one migration on, with the versions read at its start. */
  function Walk<U>(e: Engine<U>, db: Db<U>, applied: set<string>, list: seq<Migration>): (Db<U>, Reply)
    decreases list
  {
    if list == [] then (db, Done)
    else if list[0].version in applied then Walk(e, db, applied, list[1..])
    else
      var (d, r) := e.Transaction(db, list[0].Batch());
      match Classify(r)
      case Applied => Walk(e, d, applied, list[1..])
      case TakenByOther => Walk(e, d, applied, list[1..])
      case InPlace =>
        var (d', r') := Repaired(e, d, list[0]);
        if r'.Failed? then (d', r') else Walk(e, d', applied, list[1..])
      case Fatal(m) => (d, Failed(m))
  }

  /** On databases with the versions of base recorded, a migration's own statements fail
      or leave the recorded versions alone. */
  ghost predicate KeepsVersions<U(!new)>(e: Engine<U>, base: set<string>, body: seq<Stmt>) {
    forall d: Db<U>, s | s in body && base <= d.versions ::
      match e.Exec(d, s) case Ok(d') => d'.versions == d.versions case Err(_) => true
  }

  lemma {:induction false} BodyKeepsVersions<U(!new)>(e: Engine<U>, base: set<string>, d: Db<U>,
                                                      body: seq<Stmt>)
    requires KeepsVersions(e, base, body) && base <= d.versions
    ensures match e.ExecAll(d, body) case Ok(d') => d'.versions == d.versions case Err(_) => true
    decreases body
  {
    if body != [] {
      assert body[0] in body;
      match e.Exec(d, body[0])
      case Ok(d') => BodyKeepsVersions(e, base, d', body[1..]);
      case Err(_) =>
    }
  }

  /** So every migration of the list records its own version at most. */
  ghost predicate OwnVersionsOnly<U(!new)>(e: Engine<U>, base: set<string>, list: seq<Migration>) {
    forall m | m in list :: KeepsVersions(e, base, m.Body())
  }

  predicate Distinct(list: seq<Migration>) {
    forall i, j | 0 <= i < j < |list| :: list[i].version != list[j].version
  }

  /** A batch fails with the text that Run takes for a version another node recorded,
      but its version is not recorded. */
  predicate Misread<U>(e: Engine<U>, db: Db<U>, m: Migration) {
    var r := e.Transaction(db, m.Batch()).1;
    m.version !in db.versions && r.Failed? && IsVersionTaken(r.msg)
  }

  /** Some batch of the walk is misread. */
  predicate MisreadOnWalk<U>(e: Engine<U>, db: Db<U>, applied: set<string>, list: seq<Migration>)
    decreases list
  {
    if list == [] then false
    else if list[0].version in applied then MisreadOnWalk(e, db, applied, list[1..])
    else
      var (d, r) := e.Transaction(db, list[0].Batch());
      Misread(e, db, list[0]) ||
      match Classify(r)
      case Applied => MisreadOnWalk(e, d, applied, list[1..])
      case TakenByOther => MisreadOnWalk(e, d, applied, list[1..])
      case InPlace =>
        var (d', r') := Repaired(e, d, list[0]);
        r'.Done? && MisreadOnWalk(e, d', applied, list[1..])
      case Fatal(_) => false
  }

  lemma BatchVersions<U(!new)>(e: Engine<U>, base: set<string>, db: Db<U>, m: Migration)
    requires KeepsVersions(e, base, m.Body()) && base <= db.versions
    ensures var (d, r) := e.Transaction(db, m.Batch());
            d.versions == if r.Done? then db.versions + {m.version} else db.versions
  {
    hide Migration.Body;
    assert m.Batch()[1..] == m.Body();
    BodyKeepsVersions(e, base, db.(versions := db.versions + {m.version}), m.Body());
  }

  lemma {:induction false} RepairKeepsVersions<U(!new)>(e: Engine<U>, base: set<string>, db: Db<U>,
                                                        body: seq<Stmt>)
    requires KeepsVersions(e, base, body) && base <= db.versions
    ensures RepairBody(e, db, body).0.versions == db.versions
    decreases body
  {
    hide IsIdempotentError;
    if body != [] {
      assert body[0] in body;
      SingleStatement(e, db, body[0]);
      RepairKeepsVersions(e, base, e.Transaction(db, [body[0]]).0, body[1..]);
    }
  }

  lemma SingleStatement<U>(e: Engine<U>, db: Db<U>, s: Stmt)
    ensures e.Transaction(db, [s]) ==
            match e.Exec(db, s) case Ok(d) => (d, Done) case Err(m) => (db, Failed(m))
  {
    assert [s][1..] == [];
    match e.Exec(db, s)
    case Ok(d) => assert e.ExecAll(d, []) == Ok(d);
    case Err(_) =>
  }

  lemma RepairedVersions<U(!new)>(e: Engine<U>, base: set<string>, db: Db<U>, m: Migration)
    requires KeepsVersions(e, base, m.Body()) && base <= db.versions
    ensures var (d, r) := Repaired(e, db, m);
            d.versions == if r.Done? then db.versions + {m.version} else db.versions
  {
    hide RepairBody, Migration.Body, Engine.Transaction, Engine.Exec;
    RepairKeepsVersions(e, base, db, m.Body());
    var d := RepairBody(e, db, m.Body()).0;
    SingleStatement(e, d, InsertOrIgnoreVersion(m.version));
    Recording(e, d, m.version);
  }

  lemma Recording<U>(e: Engine<U>, d: Db<U>, version: string)
    ensures e.Exec(d, InsertOrIgnoreVersion(version)) == Ok(d.(versions := d.versions + {version}))
  {
  }

  /** From a to b only versions of the list came, and none went. */
  ghost predicate Adds(a: set<string>, b: set<string>, list: seq<Migration>) {
    a <= b && forall v | v in b && v !in a :: exists m :: m in list && m.version == v
  }

  lemma AddsFirst(a: set<string>, a': set<string>, b: set<string>, list: seq<Migration>)
    requires list != [] && (a' == a || a' == a + {list[0].version}) && Adds(a', b, list[1..])
    ensures Adds(a, b, list)
  {
    assert list[0] in list && forall m | m in list[1..] :: m in list;
  }

  /** The walk records versions of the list and forgets none. */
  lemma {:induction false} WalkVersions<U(!new)>(e: Engine<U>, base: set<string>, db: Db<U>, applied: set<string>,
                                                 list: seq<Migration>)
    requires OwnVersionsOnly(e, base, list) && base <= db.versions
    ensures Adds(db.versions, Walk(e, db, applied, list).0.versions, list)
    decreases list
  {
    hide KeepsVersions, Migration.Batch, Engine.Transaction, Repaired, IsVersionTaken, IsIdempotentError, Adds;
    if list == [] {
      AddsSame(db.versions, list);
    } else {
      var m, rest := list[0], list[1..];
      assert m in list && list == [m] + rest;
      var (d, r) := e.Transaction(db, m.Batch());
      BatchVersions(e, base, db, m);
      var end := Walk(e, db, applied, list).0.versions;
      if m.version in applied {
        WalkVersions(e, base, db, applied, rest);
        AddsFirst(db.versions, db.versions, end, list);
      } else if Classify(r).InPlace? {
        var (d', r') := Repaired(e, d, m);
        RepairedVersions(e, base, d, m);
        if r'.Done? { WalkVersions(e, base, d', applied, rest); } else { AddsSame(end, rest); }
        AddsFirst(db.versions, d'.versions, end, list);
      } else {
        if Classify(r).Fatal? { AddsSame(end, rest); } else { WalkVersions(e, base, d, applied, rest); }
        AddsFirst(db.versions, d.versions, end, list);
      }
    }
  }

  lemma AddsSame(a: set<string>, list: seq<Migration>)
    ensures Adds(a, a, list)
  {
  }

  predicate AllRecorded(list: seq<Migration>, versions: set<string>) {
    forall m | m in list :: m.version in versions
  }

  /** The rest of a list of distinct versions neither records nor forgets the first. */
  lemma FirstAndRest(list: seq<Migration>, a: set<string>, b: set<string>)
    requires list != [] && Distinct(list) && Adds(a, b, list[1..])
    ensures a <= b && Distinct(list[1..])
    ensures AllRecorded(list, b) <==> list[0].version in a && AllRecorded(list[1..], b)
  {
    assert list == [list[0]] + list[1..];
  }

  /** A Run without an error, over any list of distinct versions and from any snapshot,
      stale or not, has recorded every version, exactly when no failure on its way was
      misread. */
  lemma {:induction false} WalkRecordsExactly<U(!new)>(e: Engine<U>, base: set<string>, db: Db<U>,
                                                       applied: set<string>, list: seq<Migration>)
    requires OwnVersionsOnly(e, base, list) && base <= db.versions && Distinct(list) && applied <= db.versions
    requires Walk(e, db, applied, list).1.Done?
    ensures AllRecorded(list, Walk(e, db, applied, list).0.versions) <==> !MisreadOnWalk(e, db, applied, list)
    decreases list
  {
    hide KeepsVersions, Migration.Batch, Engine.Transaction, Repaired, IsVersionTaken, IsIdempotentError,
         AllRecorded, Adds, Distinct;
    if list == [] {
      NothingToRecord(Walk(e, db, applied, list).0.versions);
    } else {
      var m, rest := list[0], list[1..];
      assert m in list && list == [m] + rest;
      var (d, r) := e.Transaction(db, m.Batch());
      var end := Walk(e, db, applied, list).0.versions;
      BatchVersions(e, base, db, m);
      if m.version in applied {
        WalkVersions(e, base, db, applied, rest);
        FirstAndRest(list, db.versions, end);
        WalkRecordsExactly(e, base, db, applied, rest);
      } else if Classify(r).InPlace? {
        var d' := Repaired(e, d, m).0;
        RepairedVersions(e, base, d, m);
        WalkVersions(e, base, d', applied, rest);
        FirstAndRest(list, d'.versions, end);
        WalkRecordsExactly(e, base, d', applied, rest);
      } else {
        WalkVersions(e, base, d, applied, rest);
        FirstAndRest(list, d.versions, end);
        WalkRecordsExactly(e, base, d, applied, rest);
      }
    }
  }

  lemma NothingToRecord(versions: set<string>)
    ensures AllRecorded([], versions)
  {
  }

  // ----- The methods -----

  class Migrator<U> {
    const conn: Driver.Conn<U>
    const migrations: seq<Migration>

    constructor (conn: Driver.Conn<U>, migrations: seq<Migration>)
      ensures this.conn == conn && this.migrations == migrations
    {
      this.conn := conn;
      this.migrations := migrations;
    }

    ghost predicate Idle()
      reads this, conn
    {
      conn.Valid() && conn.activeTx == null
    }

    /** One batch goes out, the version insert first; the server does all of it or
        nothing. */
    method Apply(m: Migration) returns (r: Reply)
      requires Idle()
      modifies conn, conn.server
      ensures Idle()
      ensures conn.server.received == old(conn.server.received) + [m.Batch()]
      ensures var sent, stmts := conn.server.received[|conn.server.received| - 1], Splitter.Statements(m.sql);
              && |sent| == |stmts| + 1 && sent[0] == InsertVersion(m.version)
              && forall k | 0 <= k < |stmts| :: sent[k + 1] == User(stmts[k])
      ensures (conn.server.db, r) == conn.server.engine.Transaction(old(conn.server.db), m.Batch())
    {
      hide Splitter.Statements, Engine.ExecAll, Engine.Transaction, Engine.Exec;
      var tx := conn.Begin();
      r := conn.ExecContext(InsertVersion(m.version));
      if r.Failed? {
        assert false; // inside a transaction the driver only buffers
      }
      var stmts := Splitter.SplitSQL(m.sql);
      var i := 0;
      while i < |stmts|
        invariant 0 <= i <= |stmts|
        invariant conn.Valid() && conn.activeTx == tx && fresh(tx)
        invariant tx.stmts == [InsertVersion(m.version)] + m.Body()[..i]
        invariant conn.server.db == old(conn.server.db) && conn.server.received == old(conn.server.received)
        modifies tx, conn.server
      {
        assert m.Body()[..i + 1] == m.Body()[..i] + [User(stmts[i])];
        r := conn.ExecContext(User(stmts[i]));
        if r.Failed? {
          assert false;
        }
        i := i + 1;
      }
      assert m.Body()[..i] == m.Body();
      r := tx.Commit();
    }

    /** Statement by statement outside a transaction, skipping what is in place. */
    method Repair(m: Migration) returns (r: Reply)
      requires Idle()
      modifies conn.server
      ensures Idle()
      ensures (conn.server.db, r) == Repaired(conn.server.engine, old(conn.server.db), m)
    {
      var stmts := Splitter.SplitSQL(m.sql);
      ghost var e := conn.server.engine;
      assert m.Body()[0..] == m.Body();
      var i := 0;
      while i < |stmts|
        invariant 0 <= i <= |stmts| && Idle()
        invariant RepairBody(e, conn.server.db, m.Body()[i..]) == RepairBody(e, old(conn.server.db), m.Body())
      {
        assert m.Body()[i..][1..] == m.Body()[i + 1..];
        assert m.Body()[i..][0] == User(stmts[i]);
        r := conn.ExecContext(User(stmts[i]));
        if r.Failed? && !IsIdempotentError(r.msg) {
          return;
        }
        i := i + 1;
      }
      r := conn.ExecContext(InsertOrIgnoreVersion(m.version));
    }

    /** created and read are the answers to creating the table of versions, which is there
        already, and to the query for them; an error of either ends Run at once. */
    method Run(created: Reply, read: Reply) returns (r: Reply)
      requires Idle()
      modifies conn, conn.server
      ensures Idle()
      ensures (conn.server.db, r)
           == if created.Failed? then (old(conn.server.db), created)
              else if read.Failed? then (old(conn.server.db), read)
              else Walk(conn.server.engine, old(conn.server.db), old(conn.server.db).versions, migrations)
    {
      hide Engine.Transaction, Repaired, IsVersionTaken, IsIdempotentError, Splitter.Statements, Migration.Body;
      if created.Failed? {
        return created;
      }
      if read.Failed? {
        return read;
      }
      var applied := conn.QueryContext((d: Db<U>) => d.versions);
      ghost var e := conn.server.engine;
      assert migrations[0..] == migrations;
      var i := 0;
      while i < |migrations|
        invariant 0 <= i <= |migrations| && Idle()
        invariant Walk(e, conn.server.db, applied, migrations[i..])
               == Walk(e, old(conn.server.db), applied, migrations)
      {
        var m := migrations[i];
        assert migrations[i..][1..] == migrations[i + 1..];
        if m.version !in applied {
          r := Apply(m);
          match Classify(r)
          case Applied =>
          case TakenByOther =>
          case InPlace =>
            r := Repair(m);
            if r.Failed? {
              return;
            }
          case Fatal(_) =>
            return;
        }
        i := i + 1;
      }
      r := Done;
    }
  }
}
