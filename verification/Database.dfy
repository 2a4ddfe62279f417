/** The database behind the migrator: what one statement and one atomic
    transaction do to it, and how the migrator reads its errors. */
module Database {

  /** An error is its message, as the migrator sees it. */
  datatype Outcome<D> = Ok(db: D) | Err(msg: string)

  /** A batch's answer: done, or failed with a message. */
  datatype Reply = Done | Failed(msg: string)

  predicate Contains(s: string, sub: string) {
    (|sub| <= |s| && s[..|sub|] == sub) || (s != "" && Contains(s[1..], sub))
  }

  lemma {:induction false} ContainsMiddle(a: string, sub: string, b: string)
    ensures Contains(a + sub + b, sub)
  {
    if a == "" {
      assert a + sub + b == sub + b;
    } else {
      ContainsMiddle(a[1..], sub, b);
      assert (a + sub + b)[1..] == a[1..] + sub + b;
    }
  }

  /** part stands somewhere in text. */
  ghost predicate Holds(text: string, part: string) {
    exists a, b :: text == a + part + b
  }

  lemma {:induction false} ContainsExactly(s: string, sub: string)
    ensures Contains(s, sub) <==> Holds(s, sub)
  {
    if Contains(s, sub) {
      if |sub| <= |s| && s[..|sub|] == sub {
        assert s == "" + sub + s[|sub|..];
      } else {
        ContainsExactly(s[1..], sub);
        var a, b :| s[1..] == a + sub + b;
        assert s == [s[0]] + a + sub + b;
      }
    }
    if Holds(s, sub) {
      var a, b :| s == a + sub + b;
      ContainsMiddle(a, sub, b);
    }
  }

  const VERSION_TAKEN := "UNIQUE constraint failed: schema_migrations.version"

  predicate IsVersionTaken(msg: string) { Contains(msg, VERSION_TAKEN) }

  predicate IsIdempotentError(msg: string) {
    || Contains(msg, "duplicate column name")
    || (Contains(msg, "table") && Contains(msg, "already exists"))
    || (Contains(msg, "index") && Contains(msg, "already exists"))
  }

  /** The rows of schema_migrations by version, and everything else. */
  datatype Db<U> = Db(versions: set<string>, user: U)

  datatype Stmt =
    | InsertVersion(version: string)          // INSERT INTO schema_migrations
    | InsertOrIgnoreVersion(version: string)  // INSERT OR IGNORE INTO schema_migrations
    | User(sql: string)                       // a statement of a migration

  /** A database engine: what a migration's own statement does, and the texts that
      stand before and behind the engine's message in the client's error. */
  datatype Engine<!U> = Engine(prefix: string, suffix: string, run: (Db<U>, string) -> Outcome<Db<U>>) {

    /** The engine's message as the client's error quotes it. */
    function Says(msg: string): string { prefix + msg + suffix }

    function Exec(db: Db<U>, s: Stmt): Outcome<Db<U>> {
      match s
      case InsertVersion(v) =>
        if v in db.versions then Err(Says(VERSION_TAKEN)) else Ok(db.(versions := db.versions + {v}))
      case InsertOrIgnoreVersion(v) => Ok(db.(versions := db.versions + {v}))
      case User(sql) => run(db, sql)
    }

    /** Statements one after the other; the first error stops. */
    function ExecAll(db: Db<U>, stmts: seq<Stmt>): Outcome<Db<U>>
      decreases stmts
    {
      if stmts == [] then Ok(db)
      else match Exec(db, stmts[0])
        case Ok(d) => ExecAll(d, stmts[1..])
        case Err(m) => Err(m)
    }

    /** A transaction is atomic: all of it or nothing. */
    function Transaction(db: Db<U>, stmts: seq<Stmt>): (Db<U>, Reply) {
      match ExecAll(db, stmts)
      case Ok(d) => (d, Done)
      case Err(m) => (db, Failed(m))
    }

    lemma TakenIsTaken()
      ensures IsVersionTaken(Says(VERSION_TAKEN))
    {
      ContainsMiddle(prefix, VERSION_TAKEN, suffix);
    }
  }
}
