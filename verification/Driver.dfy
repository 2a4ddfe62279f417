/** The database/sql driver (driver.go): a transaction's statements are held back
    and sent as one batch at Commit. */
module Driver {
  import opened Database
  import opened Options

  // ----- The server and the connection -----

  /** The server end of the client: its database, and the batches it was sent. */
  class Server<U> {
    const engine: Engine<U>
    var db: Db<U>
    var received: seq<seq<Stmt>>

    constructor (engine: Engine<U>, db: Db<U>)
      ensures this.engine == engine && this.db == db && received == []
    {
      this.engine := engine;
      this.db := db;
      received := [];
    }

    method SQLTransaction(stmts: seq<Stmt>) returns (r: Reply)
      modifies this
      ensures received == old(received) + [stmts]
      ensures (db, r) == engine.Transaction(old(db), stmts)
    {
      received := received + [stmts];
      var (d, reply) := engine.Transaction(db, stmts);
      db := d;
      r := reply;
    }

    method SQLExec(s: Stmt) returns (r: Reply)
      modifies this
      ensures received == old(received) + [[s]]
      ensures (db, r) == engine.Transaction(old(db), [s])
    {
      r := SQLTransaction([s]);
    }
  }

  class Tx<U> {
    const conn: Conn<U>
    var stmts: seq<Stmt>

    constructor (conn: Conn<U>)
      ensures this.conn == conn && stmts == []
    {
      this.conn := conn;
      stmts := [];
    }

    method Buffer(s: Stmt)
      modifies this
      ensures stmts == old(stmts) + [s]
    {
      stmts := stmts + [s];
    }

    /** The whole buffer goes out as one batch; an empty one is not sent. */
    method Commit() returns (r: Reply)
      requires conn.Valid() && conn.activeTx == this
      modifies this, conn, conn.server
      ensures conn.Valid() && conn.View() == None && stmts == []
      ensures var (view, sent) := Step(Some(old(stmts)), ECommit);
              conn.View() == view && conn.server.received == old(conn.server.received) + sent
      ensures if old(stmts) == [] then r == Done && conn.server.db == old(conn.server.db)
              else (conn.server.db, r) == conn.server.engine.Transaction(old(conn.server.db), old(stmts))
    {
      conn.activeTx := null;
      if |stmts| == 0 {
        return Done;
      }
      r := conn.server.SQLTransaction(stmts);
      stmts := [];
    }

    method Rollback()
      requires conn.Valid() && conn.activeTx == this
      modifies this, conn
      ensures conn.Valid() && conn.View() == None && stmts == []
      ensures conn.View() == Step(Some(old(stmts)), ERollback).0
    {
      conn.activeTx := null;
      stmts := [];
    }
  }

  class Conn<U> {
    const server: Server<U>
    var activeTx: Tx?<U>

    constructor (server: Server<U>)
      ensures this.server == server && Valid() && View() == None
    {
      this.server := server;
      activeTx := null;
    }

    ghost predicate Valid()
      reads this
    {
      activeTx != null ==> activeTx.conn == this
    }

    /** The open transaction's statements, if one is open. */
    function View(): Option<seq<Stmt>>
      reads this, activeTx
    {
      if activeTx == null then None else Some(activeTx.stmts)
    }

    method Begin() returns (tx: Tx<U>)
      modifies this
      ensures Valid() && fresh(tx) && activeTx == tx
      ensures (View(), []) == Step(old(View()), EBegin)
    {
      tx := new Tx(this);
      activeTx := tx;
    }

    /** Inside a transaction a statement is held back and reported done; outside
        it is sent at once. */
    method ExecContext(s: Stmt) returns (r: Reply)
      requires Valid()
      modifies activeTx, server
      ensures Valid() && activeTx == old(activeTx)
      ensures var (view, sent) := Step(old(View()), EExec(s));
              View() == view && server.received == old(server.received) + sent
      ensures if old(View()).Some? then r == Done && server.db == old(server.db)
              else (server.db, r) == server.engine.Transaction(old(server.db), [s])
    {
      if activeTx != null {
        activeTx.Buffer(s);
        return Done;
      }
      r := server.SQLExec(s);
    }

    /** A query never enters the buffer: it reads the committed database, also
        inside a transaction. */
    method QueryContext<R>(query: Db<U> -> R) returns (rows: R)
      ensures rows == query(server.db)
      ensures (View(), []) == Step(View(), EQuery)
    {
      rows := query(server.db);
    }
  }

  // ----- One connection as a machine -----

  datatype Event = EBegin | EExec(s: Stmt) | EQuery | ECommit | ERollback

  /** What an event does to the open transaction, and the batches it sends. */
  function Step(view: Option<seq<Stmt>>, e: Event): (Option<seq<Stmt>>, seq<seq<Stmt>>) {
    match e
    case EBegin => (Some([]), [])
    case EExec(s) => if view.Some? then (Some(view.value + [s]), []) else (None, [[s]])
    case EQuery => (view, [])
    case ECommit => (None, if view.Some? && view.value != [] then [view.value] else [])
    case ERollback => (None, [])
  }

  // ----- Pooled connections -----

  datatype Op = Op(conn: nat, event: Event)

  type Pool = map<nat, seq<Stmt>>

  function ViewOf(p: Pool, c: nat): Option<seq<Stmt>> {
    if c in p then Some(p[c]) else None
  }

  function PoolStep(p: Pool, op: Op): (Pool, seq<seq<Stmt>>) {
    var (view, sent) := Step(ViewOf(p, op.conn), op.event);
    (match view case None => p - {op.conn} case Some(b) => p[op.conn := b], sent)
  }

  /** All operations, in order: the open transactions and the batches received. */
  function Replay(ops: seq<Op>): (Pool, seq<seq<Stmt>>) {
    if ops == [] then (map[], [])
    else
      var (p, received) := Replay(ops[..|ops| - 1]);
      var (p', sent) := PoolStep(p, ops[|ops| - 1]);
      (p', received + sent)
  }

  // ----- What the server should get, said by looking back -----

  predicate Controls(op: Op, c: nat) {
    op.conn == c && (op.event.EBegin? || op.event.ECommit? || op.event.ERollback?)
  }

  /** Operation b began the transaction of c that is still open behind h. */
  predicate BeganAt(h: seq<Op>, c: nat, b: nat) {
    b < |h| && h[b] == Op(c, EBegin) && forall j | b < j < |h| :: !Controls(h[j], c)
  }

  /** The statements executed on c, in order. */
  function Execs(h: seq<Op>, c: nat): seq<Stmt> {
    if h == [] then []
    else
      var op := h[|h| - 1];
      Execs(h[..|h| - 1], c) + if op.conn == c && op.event.EExec? then [op.event.s] else []
  }

  /** The batch that operation p must cause: a commit sends what was executed since
      its begin, unless that is nothing; a statement outside a transaction goes out
      alone; nothing else sends. */
  ghost predicate Causes(ops: seq<Op>, p: nat, sent: seq<seq<Stmt>>)
    requires p < |ops|
  {
    var h, c := ops[..p], ops[p].conn;
    match ops[p].event
    case EExec(s) =>
      sent == if exists b: nat :: BeganAt(h, c, b) then [] else [[s]]
    case ECommit =>
      if exists b: nat :: BeganAt(h, c, b) then
        forall b: nat | BeganAt(h, c, b) ::
          sent == if Execs(h[b + 1..], c) == [] then [] else [Execs(h[b + 1..], c)]
      else sent == []
    case _ => sent == []
  }

  function Flatten(bs: seq<seq<seq<Stmt>>>): seq<seq<Stmt>> {
    if bs == [] then [] else Flatten(bs[..|bs| - 1]) + bs[|bs| - 1]
  }

  /** A connection's open transaction is the one the history shows: begun last, not
      finished, holding what was executed since. */
  lemma {:induction false} OpenIsLastBegun(ops: seq<Op>, c: nat)
    ensures c in Replay(ops).0 <==> exists b: nat :: BeganAt(ops, c, b)
    ensures forall b: nat | BeganAt(ops, c, b) :: c in Replay(ops).0 && Replay(ops).0[c] == Execs(ops[b + 1..], c)
  {
    if ops != [] {
      var h, op := ops[..|ops| - 1], ops[|ops| - 1];
      OpenIsLastBegun(h, c);
      var p := Replay(h).0;
      if op == Op(c, EBegin) {
        assert BeganAt(ops, c, |ops| - 1);
        forall b: nat | BeganAt(ops, c, b) ensures b == |ops| - 1 {
          assert Controls(ops[|ops| - 1], c);
        }
        assert ops[|ops|..] == [];
      } else if Controls(op, c) {
        forall b: nat ensures !BeganAt(ops, c, b) {
          assert Controls(ops[|ops| - 1], c);
        }
      } else {
        forall b: nat ensures BeganAt(ops, c, b) <==> BeganAt(h, c, b) {
          if b < |h| { assert ops[b] == h[b]; }
          if BeganAt(ops, c, b) { assert forall j | b < j < |h| :: h[j] == ops[j]; }
        }
        forall b: nat | BeganAt(ops, c, b) ensures Replay(ops).0[c] == Execs(ops[b + 1..], c) {
          assert BeganAt(h, c, b);
          assert ops[b + 1..] == h[b + 1..] + [op];
          assert ops[b + 1..][..|ops[b + 1..]| - 1] == h[b + 1..];
        }
      }
    }
  }

  lemma LastCauses(ops: seq<Op>)
    requires ops != []
    ensures var n := |ops| - 1;
            Causes(ops, n, PoolStep(Replay(ops[..n]).0, ops[n]).1)
  {
    hide Replay, BeganAt, Execs;
    OpenIsLastBegun(ops[..|ops| - 1], ops[|ops| - 1].conn);
  }

  lemma EarlierCauses(ops: seq<Op>, n: nat, p: nat, sent: seq<seq<Stmt>>)
    requires p < n <= |ops| && Causes(ops[..n], p, sent)
    ensures Causes(ops, p, sent)
  {
    assert ops[..n][..p] == ops[..p];
  }

  /** Over any operations on any number of pooled connections the server receives,
      in order, exactly the batches the history calls for: each committed
      transaction's statements once and as one batch, nothing of rolled-back, open
      or empty ones, and every statement outside a transaction at once. */
  lemma {:induction false} ReceivedExactly(ops: seq<Op>) returns (sent: seq<seq<seq<Stmt>>>)
    ensures |sent| == |ops| && forall p | 0 <= p < |ops| :: Causes(ops, p, sent[p])
    ensures Replay(ops).1 == Flatten(sent)
  {
    hide Causes, Step;
    if ops == [] {
      sent := [];
    } else {
      var n := |ops| - 1;
      var earlier := ReceivedExactly(ops[..n]);
      LastCauses(ops);
      sent := earlier + [PoolStep(Replay(ops[..n]).0, ops[n]).1];
      assert sent[..n] == earlier;
      forall p | 0 <= p < n ensures Causes(ops, p, sent[p]) {
        EarlierCauses(ops, n, p, sent[p]);
      }
    }
  }
}
