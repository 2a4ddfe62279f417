/** The migrator's apply (migrator.go) on a connection that executes each statement at
    once inside a real transaction, as apply is written for, against the driver that
    holds the statements back until Commit (driver.go). */
module Direct {
  import opened Database
  import opened Migrator
  import opened Options
  import Splitter

  /** A connection to a database of its own. A transaction works on a copy. */
  class DirectConn<U> {
    const engine: Engine<U>
    var db: Db<U>
    var working: Option<Db<U>>

    constructor (engine: Engine<U>, db: Db<U>)
      ensures this.engine == engine && this.db == db && working == None
    {
      this.engine := engine;
      this.db := db;
      working := None;
    }

    method Begin()
      modifies this
      ensures db == old(db) && working == Some(db)
    {
      working := Some(db);
    }

    /** The statement's own answer, at once. A failed statement changes nothing. */
    method ExecContext(s: Stmt) returns (r: Reply)
      modifies this
      ensures match engine.Exec(if old(working).Some? then old(working).value else old(db), s)
              case Ok(d) =>
                && r == Done
                && working == (if old(working).Some? then Some(d) else None)
                && db == (if old(working).Some? then old(db) else d)
              case Err(m) => r == Failed(m) && working == old(working) && db == old(db)
    {
      match engine.Exec(if working.Some? then working.value else db, s)
      case Ok(d) =>
        if working.Some? {
          working := Some(d);
        } else {
          db := d;
        }
        r := Done;
      case Err(m) =>
        r := Failed(m);
    }

    method Commit() returns (r: Reply)
      requires working.Some?
      modifies this
      ensures r == Done && db == old(working).value && working == None
    {
      db := working.value;
      working := None;
      r := Done;
    }

    method Rollback()
      modifies this
      ensures db == old(db) && working == None
    {
      working := None;
    }
  }

  /** apply, statement by statement, with its rollback at the first error. */
  method Apply<U>(conn: DirectConn<U>, m: Migration) returns (r: Reply)
    requires conn.working.None?
    modifies conn
    ensures conn.working.None?
    ensures (conn.db, r) == conn.engine.Transaction(old(conn.db), m.Batch())
  {
    hide Splitter.Statements, Engine.Exec;
    ghost var e, db0 := conn.engine, conn.db;
    conn.Begin();
    r := conn.ExecContext(InsertVersion(m.version));
    assert m.Batch()[1..] == m.Body();
    if r.Failed? {
      conn.Rollback();
      return;
    }
    var stmts := Splitter.SplitSQL(m.sql);
    assert m.Body()[0..] == m.Body();
    var i := 0;
    while i < |stmts|
      invariant 0 <= i <= |stmts| && conn.working.Some? && conn.db == db0
      invariant e.ExecAll(db0, m.Batch()) == e.ExecAll(conn.working.value, m.Body()[i..])
    {
      assert m.Body()[i..][1..] == m.Body()[i + 1..] && m.Body()[i..][0] == User(stmts[i]);
      r := conn.ExecContext(User(stmts[i]));
      if r.Failed? {
        conn.Rollback();
        return;
      }
      i := i + 1;
    }
    r := conn.Commit();
  }

  /** From one database, apply through the buffering driver and apply on the connection
      that executes at once leave the same database, give the same answer and the same
      verdict, for every migration, those that fail partway included. */
  method ApplyBoth<U>(buffered: Migrator<U>, direct: DirectConn<U>, m: Migration)
      returns (r: Reply, r': Reply)
    requires buffered.Idle() && direct.working.None?
    requires direct.engine == buffered.conn.server.engine && direct.db == buffered.conn.server.db
    modifies buffered.conn, buffered.conn.server, direct
    ensures direct.db == buffered.conn.server.db && r == r' && Classify(r) == Classify(r')
    ensures buffered.conn.server.received == old(buffered.conn.server.received) + [m.Batch()]
    ensures buffered.Idle() && direct.working.None?
  {
    hide Engine.Transaction, Classify;
    r := buffered.Apply(m);
    r' := Apply(direct, m);
  }
}
