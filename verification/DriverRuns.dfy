/** Operations performed on real connections of one pool (driver.go), against the
    machine that replays them. */
module DriverRuns {
  import opened Database
  import opened Driver
  import opened Options

  /** Distinct connections to one server, whose open transactions are those of p. */
  ghost predicate PoolOk<U>(conns: seq<Conn<U>>, server: Server<U>, p: Pool)
    reads conns, set c | c in conns && c.activeTx != null :: c.activeTx
  {
    && (forall i, j | 0 <= i < j < |conns| :: conns[i] != conns[j])
    && (forall i | 0 <= i < |conns| ::
          conns[i].server == server && conns[i].Valid() && conns[i].View() == ViewOf(p, i))
  }

  /** One operation. A commit or rollback goes to the open transaction, if there is one:
      database/sql passes it on once. */
  method Perform<U>(conns: seq<Conn<U>>, server: Server<U>, ghost p: Pool, op: Op)
    requires PoolOk(conns, server, p) && op.conn < |conns|
    modifies server, conns, set c | c in conns && c.activeTx != null :: c.activeTx
    ensures PoolOk(conns, server, PoolStep(p, op).0)
    ensures server.received == old(server.received) + PoolStep(p, op).1
    ensures forall c | c in conns :: c.activeTx == old(c.activeTx) || c.activeTx == null || fresh(c.activeTx)
  {
    var conn := conns[op.conn];
    match op.event {
      case EBegin =>
        var tx := conn.Begin();
      case EExec(s) =>
        var r := conn.ExecContext(s);
      case EQuery =>
        var rows := conn.QueryContext((d: Db<U>) => d.versions);
      case ECommit =>
        if conn.activeTx != null {
          var r := conn.activeTx.Commit();
        }
      case ERollback =>
        if conn.activeTx != null {
          conn.activeTx.Rollback();
        }
    }
  }

  lemma ReplayNext(ops: seq<Op>, k: nat)
    requires k < |ops|
    ensures var r := Replay(ops[..k]);
            var (p, sent) := PoolStep(r.0, ops[k]);
            Replay(ops[..k + 1]) == (p, r.1 + sent)
  {
    hide PoolStep;
    assert ops[..k + 1][..k] == ops[..k];
  }

  lemma ReplayNothing()
    ensures Replay([]) == (map[], [])
  {
  }

  lemma AppendAssoc(a: seq<seq<Stmt>>, b: seq<seq<Stmt>>, c: seq<seq<Stmt>>)
    ensures a + b + c == a + (b + c)
  {
  }

  /** Any operations on any idle connections: the server receives the batches of the
      replay, in order, and nothing else. */
  method PerformAll<U>(conns: seq<Conn<U>>, server: Server<U>, ops: seq<Op>)
    requires PoolOk(conns, server, map[]) && forall c | c in conns :: c.activeTx == null
    requires forall op | op in ops :: op.conn < |conns|
    modifies server, conns
    ensures PoolOk(conns, server, Replay(ops).0)
    ensures server.received == old(server.received) + Replay(ops).1
  {
    hide Replay, PoolStep, PoolOk;
    ReplayNothing();
    assert ops[..0] == [];
    ghost var before := server.received;
    for k := 0 to |ops|
      invariant PoolOk(conns, server, Replay(ops[..k]).0)
      invariant server.received == old(server.received) + Replay(ops[..k]).1
      invariant forall c | c in conns :: c.activeTx == null || fresh(c.activeTx)
    {
      ReplayNext(ops, k);
      ghost var r := Replay(ops[..k]);
      AppendAssoc(before, r.1, PoolStep(r.0, ops[k]).1);
      Perform(conns, server, r.0, ops[k]);
    }
    assert ops[..|ops|] == ops;
  }
}
