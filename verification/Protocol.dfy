/** Several nodes run the migrator against one database at once (migrator.go):
    every interleaving, with stale snapshots, crashes, restarts, lost replies and
    requests that the server executes after their node is gone. */
module Protocol {
  import opened Database
  import opened Migrator

  datatype Node =
    | Idle                                             // not running
    | Walking(snap: set<string>, i: nat)               // about to look at migration i
    | Sent(snap: set<string>, i: nat)                  // the batch of migration i is on its way
    | Replied(snap: set<string>, i: nat, reply: Reply) // the server has answered
    | Repairing(snap: set<string>, i: nat, j: nat)     // about to send repair request j
    | Asked(snap: set<string>, i: nat, j: nat)         // repair request j is on its way
    | Told(snap: set<string>, i: nat, j: nat, reply: Reply)
    | Finished                                         // Run returned no error
    | Stopped(msg: string)                             // Run returned an error

  /** The batch of migration i, or one request of its repair: request j is statement j,
      and the one after the last statement records the version. */
  datatype Request = BatchOf(i: nat) | RepairOf(i: nat, j: nat)

  /** wire holds requests without a waiting node; log the migrations whose batch the
      database accepted, in order. */
  datatype Sys<U> = Sys(db: Db<U>, nodes: map<nat, Node>, wire: multiset<Request>, log: seq<nat>)

  function NodeOf<U>(s: Sys<U>, n: nat): Node {
    if n in s.nodes then s.nodes[n] else Idle
  }

  datatype Action =
    | Boot(n: nat)                            // Run starts and reads the applied versions
    | Crash(n: nat, sentAnyway: bool)         // the process dies; its request may still arrive
    | Skip(n: nat)                            // the version is in the snapshot
    | Send(n: nat)
    | Execute(n: nat)                         // the server runs the batch of a waiting node
    | ExecuteLate(r: Request)                 // the server runs a request nobody waits for
    | Receive(n: nat)
    | LoseReply(n: nat, msg: string, sentAnyway: bool) // a transport error instead of the answer
    | Ask(n: nat)                             // the next request of a repair is sent,
    | Mend(n: nat)                            // the server runs it,
    | Hear(n: nat)                            // and its answer arrives
    | Finish(n: nat)

  /** Error texts of the connection itself, neither of which the migrator looks for. */
  predicate TransportError(msg: string) { !IsVersionTaken(msg) && !IsIdempotentError(msg) }

  datatype Setup<!U(!new)> = Setup(engine: Engine<U>, list: seq<Migration>, db0: Db<U>, k0: nat) {

    function Init(): Sys<U> { Sys(db0, map[], multiset{}, []) }

    predicate Legal(r: Request) {
      r.i < |list| && (r.RepairOf? ==> r.j <= |list[r.i].Body()|)
    }

    predicate Enabled(s: Sys<U>, a: Action) {
      match a
      case Boot(n) => NodeOf(s, n).Idle? || NodeOf(s, n).Finished? || NodeOf(s, n).Stopped?
      case Crash(n, _) => true
      case Skip(n) => var x := NodeOf(s, n); x.Walking? && x.i < |list| && list[x.i].version in x.snap
      case Send(n) => var x := NodeOf(s, n); x.Walking? && x.i < |list| && list[x.i].version !in x.snap
      case Execute(n) => NodeOf(s, n).Sent? && NodeOf(s, n).i < |list|
      case ExecuteLate(r) => r in s.wire && Legal(r)
      case Receive(n) => NodeOf(s, n).Replied?
      case LoseReply(n, msg, _) =>
        var x := NodeOf(s, n);
        (x.Sent? || x.Replied? || x.Asked? || x.Told?) && TransportError(msg)
      case Ask(n) => var x := NodeOf(s, n); x.Repairing? && Legal(RepairOf(x.i, x.j))
      case Mend(n) => var x := NodeOf(s, n); x.Asked? && Legal(RepairOf(x.i, x.j))
      case Hear(n) => var x := NodeOf(s, n); x.Told? && Legal(RepairOf(x.i, x.j))
      case Finish(n) => var x := NodeOf(s, n); x.Walking? && x.i == |list|
    }

    function Put(s: Sys<U>, n: nat, x: Node): Sys<U> { s.(nodes := s.nodes[n := x]) }

    /** The request of a node that no longer waits may still be under way. */
    function Orphan(s: Sys<U>, n: nat, sentAnyway: bool): Sys<U> {
      var x := NodeOf(s, n);
      if x.Sent? && sentAnyway then s.(wire := s.wire + multiset{BatchOf(x.i)})
      else if x.Asked? && sentAnyway then s.(wire := s.wire + multiset{RepairOf(x.i, x.j)})
      else s
    }

    /** The server executes the batch of migration i. */
    function Fire(s: Sys<U>, i: nat): Sys<U>
      requires i < |list|
    {
      var (d, r) := engine.Transaction(s.db, list[i].Batch());
      s.(db := d, log := if r.Done? then s.log + [i] else s.log)
    }

    /** Where the answer of the server sends a waiting node. */
    function Heard(x: Node): Node
      requires x.Replied?
    {
      match Classify(x.reply)
      case Applied => Walking(x.snap, x.i + 1)
      case TakenByOther => Walking(x.snap, x.i + 1)
      case InPlace => Repairing(x.snap, x.i, 0)
      case Fatal(m) => Stopped(m)
    }

    /** What repair request j sends, outside any transaction. */
    function RepairStmts(i: nat, j: nat): seq<Stmt>
      requires Legal(RepairOf(i, j))
    {
      if j < |list[i].Body()| then [list[i].Body()[j]] else [InsertOrIgnoreVersion(list[i].version)]
    }

    function FireRepair(s: Sys<U>, i: nat, j: nat): Sys<U>
      requires Legal(RepairOf(i, j))
    {
      s.(db := engine.Transaction(s.db, RepairStmts(i, j)).0)
    }

    function Serve(s: Sys<U>, r: Request): Sys<U>
      requires Legal(r)
    {
      if r.BatchOf? then Fire(s, r.i) else FireRepair(s, r.i, r.j)
    }

    function Mended(s: Sys<U>, n: nat, x: Node): Sys<U>
      requires x.Asked? && Legal(RepairOf(x.i, x.j))
    {
      Put(FireRepair(s, x.i, x.j), n,
          Told(x.snap, x.i, x.j, engine.Transaction(s.db, RepairStmts(x.i, x.j)).1))
    }

    /** Where the answer to a repair request sends the node: an in-place error of a
        statement is passed over, any other error ends Run. */
    function HeardRepair(x: Node): Node
      requires x.Told? && Legal(RepairOf(x.i, x.j))
    {
      if x.j < |list[x.i].Body()| then
        if x.reply.Failed? && !IsIdempotentError(x.reply.msg) then Stopped(x.reply.msg)
        else Repairing(x.snap, x.i, x.j + 1)
      else if x.reply.Failed? then Stopped(x.reply.msg)
      else Walking(x.snap, x.i + 1)
    }

    function Answered(s: Sys<U>, n: nat, x: Node): Sys<U>
      requires x.Sent? && x.i < |list|
    {
      Put(Fire(s, x.i), n, Replied(x.snap, x.i, engine.Transaction(s.db, list[x.i].Batch()).1))
    }

    function Do(s: Sys<U>, a: Action): Sys<U>
      requires Enabled(s, a)
    {
      match a
      case Boot(n) => Put(s, n, Walking(s.db.versions, 0))
      case Crash(n, sentAnyway) => Put(Orphan(s, n, sentAnyway), n, Idle)
      case Skip(n) => Put(s, n, Walking(NodeOf(s, n).snap, NodeOf(s, n).i + 1))
      case Send(n) => Put(s, n, Sent(NodeOf(s, n).snap, NodeOf(s, n).i))
      case Execute(n) => Answered(s, n, NodeOf(s, n))
      case ExecuteLate(r) => Serve(s, r).(wire := s.wire - multiset{r})
      case Receive(n) => Put(s, n, Heard(NodeOf(s, n)))
      case LoseReply(n, msg, sentAnyway) => Put(Orphan(s, n, sentAnyway), n, Stopped(msg))
      case Ask(n) => Put(s, n, Asked(NodeOf(s, n).snap, NodeOf(s, n).i, NodeOf(s, n).j))
      case Mend(n) => Mended(s, n, NodeOf(s, n))
      case Hear(n) => Put(s, n, HeardRepair(NodeOf(s, n)))
      case Finish(n) => Put(s, n, Finished)
    }

    // ----- Runs -----

    predicate Runs(s: Sys<U>, acts: seq<Action>)
      decreases acts
    {
      acts == [] || (Enabled(s, acts[0]) && Runs(Do(s, acts[0]), acts[1..]))
    }

    function End(s: Sys<U>, acts: seq<Action>): Sys<U>
      requires Runs(s, acts)
      decreases acts
    {
      if acts == [] then s else End(Do(s, acts[0]), acts[1..])
    }

    predicate Repairs(x: Node) { x.Repairing? || x.Asked? || x.Told? }

    /** No node is repairing, and no request of a repair is under way. */
    predicate Quiet(s: Sys<U>) {
      (forall n | n in s.nodes :: !Repairs(s.nodes[n])) && forall r | r in s.wire :: r.BatchOf?
    }

    predicate QuietRun(s: Sys<U>, acts: seq<Action>)
      requires Runs(s, acts)
      decreases acts
    {
      Quiet(s) && (acts == [] || QuietRun(Do(s, acts[0]), acts[1..]))
    }

    lemma {:induction false} RunsConcat(s: Sys<U>, a: seq<Action>, b: seq<Action>)
      requires Runs(s, a) && Runs(End(s, a), b)
      ensures Runs(s, a + b) && End(s, a + b) == End(End(s, a), b)
      decreases a
    {
      hide Enabled, Do;
      if a == [] {
        assert a + b == b;
      } else {
        assert (a + b)[1..] == a[1..] + b;
        RunsConcat(Do(s, a[0]), a[1..], b);
      }
    }

    // ----- The single sequential migrator -----

    /** The database with migrations k0 up to k run once each, in order. */
    function After(k: nat): Outcome<Db<U>>
      requires k0 <= k <= |list|
      decreases k
    {
      if k == k0 then Ok(db0)
      else match After(k - 1)
        case Ok(d) => engine.ExecAll(d, list[k - 1].Batch())
        case Err(m) => Err(m)
    }

    /** A migration's own statements leave schema_migrations alone and never answer
        with the text that means a taken version. */
    ghost predicate Honest() {
      forall i, d: Db<U>, s | 0 <= i < |list| && s in list[i].Body() ::
        match engine.Exec(d, s)
        case Ok(d') => d'.versions == d.versions
        case Err(m) => !IsVersionTaken(m)
    }

    /** Versions are distinct, and the recorded ones are a prefix of the list. */
    ghost predicate Valid() {
      && k0 <= |list|
      && (forall i, j | 0 <= i < j < |list| :: list[i].version != list[j].version)
      && (forall i | 0 <= i < |list| :: list[i].version in db0.versions <==> i < k0)
      && Honest()
    }

    lemma {:induction false} HonestBody(i: nat, d: Db<U>, body: seq<Stmt>)
      requires Honest() && i < |list| && forall s | s in body :: s in list[i].Body()
      ensures match engine.ExecAll(d, body)
              case Ok(d') => d'.versions == d.versions
              case Err(m) => !IsVersionTaken(m)
      decreases body
    {
      if body != [] {
        assert body[0] in list[i].Body();
        match engine.Exec(d, body[0])
        case Ok(d') => HonestBody(i, d', body[1..]);
        case Err(m) =>
      }
    }

    /** Applying a migration that is recorded fails on the version insert: nothing
        changes, no statement of it runs, and Run takes it as applied. */
    lemma ReapplyChangesNothing(d: Db<U>, m: Migration)
      requires m.version in d.versions
      ensures engine.Transaction(d, m.Batch()) == (d, Failed(engine.Says(VERSION_TAKEN)))
      ensures Classify(engine.Transaction(d, m.Batch()).1) == TakenByOther
    {
      hide IsIdempotentError, IsVersionTaken;
      engine.TakenIsTaken();
    }

    /** A version not recorded yet: the batch is the insert and the body. */
    lemma FirstApply(d: Db<U>, i: nat)
      requires Honest() && i < |list| && list[i].version !in d.versions
      ensures match engine.ExecAll(d, list[i].Batch())
              case Ok(d') => d'.versions == d.versions + {list[i].version}
              case Err(m) => !IsVersionTaken(m)
    {
      hide IsVersionTaken;
      var d1 := d.(versions := d.versions + {list[i].version});
      HonestBody(i, d1, list[i].Body());
      assert list[i].Batch()[1..] == list[i].Body();
    }

    lemma {:induction false} AfterVersions(k: nat)
      requires Valid() && k0 <= k <= |list| && After(k).Ok?
      ensures forall i | 0 <= i < |list| :: list[i].version in After(k).db.versions <==> i < k
      decreases k
    {
      hide Honest, Migration.Batch, Engine.ExecAll;
      if k > k0 {
        AfterVersions(k - 1);
        FirstApply(After(k - 1).db, k - 1);
        assert list[k - 1].version !in After(k - 1).db.versions;
      }
    }

    // ----- What every quiet run keeps -----

    /** How far the list is applied. */
    function Level(s: Sys<U>): nat { k0 + |s.log| }

    predicate NodeOk(k: nat, x: Node)
      requires k <= |list|
    {
      && (x.Walking? || x.Sent? || x.Replied? || x.Repairing? ==>
            forall j | k <= j < |list| :: list[j].version !in x.snap)
      && (x.Walking? ==> x.i <= k)
      && (x.Sent? ==> x.i <= k && x.i < |list|)
      && (x.Replied? ==> x.i <= k && x.i < |list|
                         && (Classify(x.reply).Applied? || Classify(x.reply).TakenByOther? ==> x.i < k))
      && (x.Finished? ==> k == |list|)
    }

    ghost predicate Inv(s: Sys<U>) {
      var k := Level(s);
      && k <= |list|
      && After(k) == Ok(s.db)
      && (forall j | 0 <= j < |s.log| :: s.log[j] == k0 + j)
      && (forall n | n in s.nodes :: NodeOk(k, s.nodes[n]))
      && (forall r | r in s.wire && r.BatchOf? :: r.i <= k && r.i < |list|)
    }

    /** A batch up to the level either is refused as taken, or adds the next
        migration, or fails and changes nothing. */
    lemma FireKeeps(s: Sys<U>, i: nat)
      requires Valid() && Inv(s) && i <= Level(s) && i < |list|
      ensures Inv(Fire(s, i)) && Level(s) <= Level(Fire(s, i))
      ensures Fire(s, i).nodes == s.nodes && Fire(s, i).wire == s.wire
      ensures var r := engine.Transaction(s.db, list[i].Batch()).1;
              && (Classify(r).Applied? || Classify(r).TakenByOther? ==> i < Level(Fire(s, i)))
              && (Classify(r).InPlace? || Classify(r).Fatal? ==> i == Level(s))
    {
      hide IsVersionTaken, IsIdempotentError, Honest, Engine.ExecAll, Migration.Batch, NodeOk, After;
      var k := Level(s);
      AfterVersions(k);
      if i < k {
        ReapplyChangesNothing(s.db, list[i]);
      } else {
        FirstApply(s.db, i);
        AfterNext(k);
        forall n | n in s.nodes ensures NodeOk(k + 1, s.nodes[n]) {
          NodeOkGrows(k, s.nodes[n]);
        }
      }
    }

    lemma AfterNext(k: nat)
      requires k0 <= k < |list| && After(k).Ok?
      ensures After(k + 1) == engine.ExecAll(After(k).db, list[k].Batch())
    {
    }

    lemma NodeOkGrows(k: nat, x: Node)
      requires k < |list| && NodeOk(k, x)
      ensures NodeOk(k + 1, x)
    {
    }

    /** Steps that only move one node. */
    lemma PutKeeps(s: Sys<U>, n: nat, x: Node)
      requires Inv(s) && NodeOk(Level(s), x)
      ensures Inv(Put(s, n, x)) && Level(Put(s, n, x)) == Level(s)
    {
      hide NodeOk, After;
    }

    lemma OrphanKeeps(s: Sys<U>, n: nat, sentAnyway: bool)
      requires Inv(s)
      ensures Inv(Orphan(s, n, sentAnyway)) && Level(Orphan(s, n, sentAnyway)) == Level(s)
    {
      hide After;
      assert NodeOf(s, n).Sent? ==> NodeOk(Level(s), s.nodes[n]);
    }

    lemma AnsweredKeeps(s: Sys<U>, n: nat, x: Node)
      requires Valid() && Inv(s) && x.Sent? && NodeOk(Level(s), x)
      ensures Inv(Answered(s, n, x)) && Level(s) <= Level(Answered(s, n, x))
    {
      hide Inv, Valid, Fire, Classify;
      LevelBound(s);
      FireKeeps(s, x.i);
      var t := Fire(s, x.i);
      LevelBound(t);
      NodeOkUpTo(Level(s), Level(t), x);
      PutKeeps(t, n, Replied(x.snap, x.i, engine.Transaction(s.db, list[x.i].Batch()).1));
    }

    lemma LevelBound(s: Sys<U>)
      requires Inv(s)
      ensures Level(s) <= |list|
    {
    }

    lemma NodeOkOf(s: Sys<U>, n: nat)
      requires Inv(s)
      ensures Level(s) <= |list| && NodeOk(Level(s), NodeOf(s, n))
    {
      hide After;
    }

    lemma LateKeeps(s: Sys<U>, i: nat)
      requires Valid() && Inv(s) && BatchOf(i) in s.wire && i < |list|
      ensures var t := Fire(s, i).(wire := s.wire - multiset{BatchOf(i)}); Inv(t) && Level(s) <= Level(t)
    {
      hide Valid, Fire, Classify, Inv;
      OnWire(s, i);
      FireKeeps(s, i);
      WireShrinks(Fire(s, i), BatchOf(i));
    }

    lemma OnWire(s: Sys<U>, i: nat)
      requires Inv(s) && BatchOf(i) in s.wire
      ensures i <= Level(s)
    {
      hide NodeOk, After;
    }

    lemma WireShrinks(s: Sys<U>, r: Request)
      requires Inv(s)
      ensures var t := s.(wire := s.wire - multiset{r}); Inv(t) && Level(t) == Level(s)
    {
      hide NodeOk, After;
    }

    lemma StepKeeps(s: Sys<U>, a: Action)
      requires Valid() && Inv(s) && Quiet(s) && Enabled(s, a)
      ensures Inv(Do(s, a)) && Level(s) <= Level(Do(s, a))
    {
      hide Inv, Valid, Fire, Answered, Classify, Orphan, Put, Level, Migration.Body;
      match a
      case ExecuteLate(r) => LateKeeps(s, r.i);
      case Execute(n) =>
        NodeOkOf(s, n);
        AnsweredKeeps(s, n, NodeOf(s, n));
      case Boot(n) =>
        InvVersions(s);
        LevelBound(s);
        PutKeeps(s, n, Walking(s.db.versions, 0));
      case Crash(n, sentAnyway) =>
        OrphanKeeps(s, n, sentAnyway);
        LevelBound(s);
        PutKeeps(Orphan(s, n, sentAnyway), n, Idle);
      case LoseReply(n, msg, sentAnyway) =>
        OrphanKeeps(s, n, sentAnyway);
        LevelBound(s);
        PutKeeps(Orphan(s, n, sentAnyway), n, Stopped(msg));
      case Receive(n) =>
        NodeOkOf(s, n);
        PutKeeps(s, n, Heard(NodeOf(s, n)));
      case Skip(n) =>
        NodeOkOf(s, n);
        PutKeeps(s, n, Walking(NodeOf(s, n).snap, NodeOf(s, n).i + 1));
      case Send(n) =>
        NodeOkOf(s, n);
        PutKeeps(s, n, Sent(NodeOf(s, n).snap, NodeOf(s, n).i));
      case Finish(n) =>
        NodeOkOf(s, n);
        PutKeeps(s, n, Finished);
      case Ask(n) => assert false;
      case Mend(n) => assert false;
      case Hear(n) => assert false;
    }

    lemma {:induction false} NodeOkUpTo(k: nat, l: nat, x: Node)
      requires k <= l <= |list| && NodeOk(k, x)
      ensures NodeOk(l, x)
      decreases l - k
    {
      if k < l {
        NodeOkGrows(k, x);
        NodeOkUpTo(k + 1, l, x);
      }
    }

    /** Safety: in every run without a repair, over every interleaving, the database
        is always the starting one with the next migrations run once each, in order,
        and the recorded versions are always a prefix of the list. */
    lemma {:induction false} QuietRunsAreSequential(s: Sys<U>, acts: seq<Action>)
      requires Valid() && Inv(s) && Runs(s, acts) && QuietRun(s, acts)
      ensures Inv(End(s, acts)) && Level(s) <= Level(End(s, acts))
      ensures forall i | 0 <= i < |list| :: list[i].version in End(s, acts).db.versions <==> i < Level(End(s, acts))
      decreases acts
    {
      hide Inv, Valid;
      if acts == [] {
        InvVersions(s);
      } else {
        StepKeeps(s, acts[0]);
        QuietRunsAreSequential(Do(s, acts[0]), acts[1..]);
      }
    }

    lemma InvVersions(s: Sys<U>)
      requires Valid() && Inv(s)
      ensures forall i | 0 <= i < |list| :: list[i].version in s.db.versions <==> i < Level(s)
    {
      hide Honest;
      AfterVersions(Level(s));
    }

    lemma InitOk()
      requires Valid()
      ensures Inv(Init()) && Quiet(Init())
    {
    }

    // ----- When repairs can happen -----

    /** On the state its predecessors leave, migration k does not fail because its
        schema is in place already. */
    predicate CleanAt(k: nat)
      requires k0 <= k <= |list|
    {
      k < |list| && After(k).Ok? ==> !Classify(engine.Transaction(After(k).db, list[k].Batch()).1).InPlace?
    }

    ghost predicate Clean() {
      forall k | k0 <= k < |list| :: CleanAt(k)
    }

    /** No node repairs, and none has been told to. */
    predicate Calm(s: Sys<U>) {
      && (forall n | n in s.nodes ::
            !Repairs(s.nodes[n]) && (s.nodes[n].Replied? ==> !Classify(s.nodes[n].reply).InPlace?))
      && forall r | r in s.wire :: r.BatchOf?
    }

    lemma PutCalm(s: Sys<U>, n: nat, x: Node)
      requires Calm(s) && !Repairs(x) && (x.Replied? ==> !Classify(x.reply).InPlace?)
      ensures Calm(Put(s, n, x))
    {
      hide Classify;
    }

    lemma CalmOf(s: Sys<U>, n: nat)
      requires Calm(s)
      ensures var x := NodeOf(s, n); !Repairs(x) && (x.Replied? ==> !Classify(x.reply).InPlace?)
    {
      hide Classify;
    }

    lemma CalmIsQuiet(s: Sys<U>)
      requires Calm(s)
      ensures Quiet(s)
    {
      hide Classify;
    }

    lemma FireCalm(s: Sys<U>, i: nat)
      requires Valid() && Inv(s) && Calm(s) && i <= Level(s) && i < |list| && CleanAt(Level(s))
      ensures !Classify(engine.Transaction(s.db, list[i].Batch()).1).InPlace?
      ensures Calm(Fire(s, i)) && Fire(s, i).wire == s.wire
    {
      hide Classify, Valid, Migration.Batch, NodeOk;
      FireKeeps(s, i);
    }

    lemma StepCalm(s: Sys<U>, a: Action)
      requires Valid() && Inv(s) && Calm(s) && Enabled(s, a)
      requires (a.Execute? || a.ExecuteLate?) && Level(s) <= |list| ==> CleanAt(Level(s))
      ensures Calm(Do(s, a))
    {
      hide Inv, Valid, CleanAt, Calm, Fire, Classify, Put, Level, Migration.Body, Migration.Batch;
      match a
      case ExecuteLate(r) =>
        OnlyBatches(s, r);
        OnWire(s, r.i);
        LevelBound(s);
        FireCalm(s, r.i);
        WireCalm(Fire(s, r.i), r);
      case Execute(n) =>
        var x := NodeOf(s, n);
        SentOk(s, n);
        LevelBound(s);
        FireCalm(s, x.i);
        PutCalm(Fire(s, x.i), n, Replied(x.snap, x.i, engine.Transaction(s.db, list[x.i].Batch()).1));
      case Boot(n) => PutCalm(s, n, Walking(s.db.versions, 0));
      case Crash(n, sentAnyway) =>
        OrphanCalm(s, n, sentAnyway);
        PutCalm(Orphan(s, n, sentAnyway), n, Idle);
      case LoseReply(n, msg, sentAnyway) =>
        OrphanCalm(s, n, sentAnyway);
        PutCalm(Orphan(s, n, sentAnyway), n, Stopped(msg));
      case Receive(n) =>
        CalmOf(s, n);
        PutCalm(s, n, Heard(NodeOf(s, n)));
      case Skip(n) => PutCalm(s, n, Walking(NodeOf(s, n).snap, NodeOf(s, n).i + 1));
      case Send(n) => PutCalm(s, n, Sent(NodeOf(s, n).snap, NodeOf(s, n).i));
      case Finish(n) => PutCalm(s, n, Finished);
      case Ask(n) => CalmOf(s, n);
      case Mend(n) => CalmOf(s, n);
      case Hear(n) => CalmOf(s, n);
    }

    lemma OnlyBatches(s: Sys<U>, r: Request)
      requires Calm(s) && r in s.wire
      ensures r.BatchOf?
    {
      hide Classify;
    }

    lemma SentOk(s: Sys<U>, n: nat)
      requires Inv(s) && NodeOf(s, n).Sent?
      ensures NodeOf(s, n).i <= Level(s)
    {
      NodeOkOf(s, n);
    }

    lemma WireCalm(s: Sys<U>, r: Request)
      requires Calm(s)
      ensures Calm(s.(wire := s.wire - multiset{r}))
    {
      hide Classify;
    }

    lemma OrphanCalm(s: Sys<U>, n: nat, sentAnyway: bool)
      requires Calm(s)
      ensures Calm(Orphan(s, n, sentAnyway))
    {
      hide Classify;
    }

    lemma CleanEverywhere(k: nat)
      requires Clean() && k0 <= k <= |list|
      ensures CleanAt(k)
    {
      hide Classify, Migration.Batch;
    }

    lemma {:induction false} CleanRunsAreQuiet(s: Sys<U>, acts: seq<Action>)
      requires Valid() && Clean() && Inv(s) && Calm(s) && Runs(s, acts)
      ensures QuietRun(s, acts) && Inv(End(s, acts)) && Calm(End(s, acts))
      decreases acts
    {
      hide Inv, Valid, Clean, Calm, Quiet, Do, Enabled;
      CalmIsQuiet(s);
      if acts != [] {
        LevelBound(s);
        CleanEverywhere(Level(s));
        StepCalm(s, acts[0]);
        StepKeeps(s, acts[0]);
        CleanRunsAreQuiet(Do(s, acts[0]), acts[1..]);
      }
    }

    // ----- Progress -----

    /** The node walks on: three steps of its own take it over a migration whose
        predecessors succeed, whatever others did before. */
    lemma WalkOne(s: Sys<U>, n: nat) returns (acts: seq<Action>)
      requires Valid() && Inv(s) && Calm(s) && NodeOf(s, n).Walking? && Level(s) <= |list|
      requires var i := NodeOf(s, n).i; i < |list| && (i == Level(s) ==> After(i + 1).Ok?)
      requires list[NodeOf(s, n).i].version !in NodeOf(s, n).snap ==> CleanAt(Level(s))
      ensures Runs(s, acts) && |acts| <= 3 && forall a | a in acts :: a in {Skip(n), Send(n), Execute(n), Receive(n)}
      ensures var t := End(s, acts); Inv(t) && Calm(t) && NodeOf(t, n) == Walking(NodeOf(s, n).snap, NodeOf(s, n).i + 1)
      ensures Level(s) <= Level(End(s, acts)) <= Level(s) + 1
      ensures list[NodeOf(s, n).i].version in NodeOf(s, n).snap ==> Level(End(s, acts)) == Level(s)
    {
      hide Inv, Valid, CleanAt, Calm, Level, Fire, Classify, After, Migration.Batch, Engine.Transaction;
      var x := NodeOf(s, n);
      WalkingOk(s, n);
      if list[x.i].version in x.snap {
        CalmIsQuiet(s);
        StepKeeps(s, Skip(n));
        StepCalm(s, Skip(n));
        acts := [Skip(n)];
        OneAction(s, Skip(n));
        LevelPut(s, n, NodeOf(Do(s, Skip(n)), n));
      } else {
        var s1 := Do(s, Send(n));
        LevelPut(s, n, NodeOf(s1, n));
        CalmIsQuiet(s);
        StepKeeps(s, Send(n));
        StepCalm(s, Send(n));
        var s2 := Do(s1, Execute(n));
        CalmIsQuiet(s1);
        StepKeeps(s1, Execute(n));
        StepCalm(s1, Execute(n));
        var s3 := Do(s2, Receive(n));
        CalmIsQuiet(s2);
        StepKeeps(s2, Receive(n));
        StepCalm(s2, Receive(n));
        AnswerMovesOn(s, x.i);
        LevelFire(s1, x.i);
        LevelPut(Fire(s1, x.i), n, NodeOf(s2, n));
        LevelPut(s2, n, NodeOf(s3, n));
        acts := [Send(n), Execute(n), Receive(n)];
        ThreeActions(s, Send(n), Execute(n), Receive(n));
      }
    }

    lemma LevelPut(s: Sys<U>, n: nat, x: Node)
      ensures Level(Put(s, n, x)) == Level(s)
    {
    }

    lemma LevelFire(s: Sys<U>, i: nat)
      requires i < |list|
      ensures Level(s) <= Level(Fire(s, i)) <= Level(s) + 1
    {
      hide Migration.Batch, Engine.Transaction;
    }

    lemma OneAction(s: Sys<U>, a: Action)
      requires Enabled(s, a)
      ensures Runs(s, [a]) && End(s, [a]) == Do(s, a)
    {
      hide Enabled, Do;
      assert [a][1..] == [];
      assert Runs(Do(s, a), []);
      assert End(Do(s, a), []) == Do(s, a);
    }

    lemma ThreeActions(s: Sys<U>, a: Action, b: Action, c: Action)
      requires Enabled(s, a) && Enabled(Do(s, a), b) && Enabled(Do(Do(s, a), b), c)
      ensures Runs(s, [a, b, c]) && End(s, [a, b, c]) == Do(Do(Do(s, a), b), c)
    {
      hide Enabled, Do;
      OneAction(s, a);
      OneAction(Do(s, a), b);
      OneAction(Do(Do(s, a), b), c);
      RunsConcat(Do(s, a), [b], [c]);
      assert [b] + [c] == [b, c];
      RunsConcat(s, [a], [b, c]);
      assert [a] + [b, c] == [a, b, c];
    }

    lemma AnswerMovesOn(s: Sys<U>, i: nat)
      requires Valid() && Inv(s) && i <= Level(s) && i < |list| && (i == Level(s) ==> After(i + 1).Ok?)
      ensures var v := Classify(engine.Transaction(s.db, list[i].Batch()).1); v.Applied? || v.TakenByOther?
    {
      hide IsVersionTaken, IsIdempotentError, Migration.Batch, Engine.ExecAll, NodeOk, Honest;
      AfterVersions(Level(s));
      if i < Level(s) {
        ReapplyChangesNothing(s.db, list[i]);
      } else {
        AfterNext(i);
      }
    }

    lemma AfterMonotone(j: nat, k: nat)
      requires k0 <= j <= k <= |list| && After(k).Ok?
      ensures After(j).Ok?
      decreases k
    {
      hide Migration.Batch, Engine.ExecAll;
      if j < k { AfterMonotone(j, k - 1); }
    }

    lemma SuccessIsClean(k: nat)
      requires k0 <= k < |list| && After(k + 1).Ok?
      ensures CleanAt(k)
    {
      hide Classify, Migration.Batch;
      AfterMonotone(k, k + 1);
      AfterNext(k);
      DoneIsApplied();
    }

    lemma AllSucceedIsClean()
      requires k0 <= |list| && After(|list|).Ok?
      ensures Clean()
    {
      hide Classify, Migration.Batch;
      forall k | k0 <= k < |list| ensures CleanAt(k) {
        AfterMonotone(k + 1, |list|);
        SuccessIsClean(k);
      }
    }

    lemma DoneIsApplied()
      ensures Classify(Done) == Applied
    {
    }

    /** Progress: if the migrations succeed one after the other, a node that walks
        finishes by steps of its own alone, at most three for each migration left and
        one more, in whatever state the other nodes are; and then every version is
        recorded. */
    lemma {:induction false} CanFinish(s: Sys<U>, n: nat) returns (acts: seq<Action>)
      requires Valid() && Inv(s) && Calm(s) && After(|list|).Ok? && NodeOf(s, n).Walking?
      ensures Runs(s, acts) && |acts| <= 3 * (|list| - NodeOf(s, n).i) + 1
      ensures forall a | a in acts :: a in {Skip(n), Send(n), Execute(n), Receive(n), Finish(n)}
      ensures var t := End(s, acts); Inv(t) && NodeOf(t, n).Finished? && Level(t) == |list|
      decreases |list| - NodeOf(s, n).i
    {
      hide Inv, Valid, Clean, Calm, After, Do, Enabled, Level;
      WalkingOk(s, n);
      AllSucceedIsClean();
      var i := NodeOf(s, n).i;
      if i < |list| {
        if i == Level(s) { AfterMonotone(i + 1, |list|); }
        CleanEverywhere(Level(s));
        var first := WalkOne(s, n);
        var rest := CanFinish(End(s, first), n);
        RunsConcat(s, first, rest);
        acts := first + rest;
      } else {
        acts := [Finish(n)];
        FinishNow(s, n);
      }
    }

    lemma WalkingOk(s: Sys<U>, n: nat)
      requires Inv(s) && NodeOf(s, n).Walking?
      ensures NodeOf(s, n).i <= Level(s) <= |list| && k0 <= Level(s)
    {
      NodeOkOf(s, n);
    }

    lemma FinishNow(s: Sys<U>, n: nat)
      requires Valid() && Inv(s) && Calm(s) && NodeOf(s, n).Walking? && NodeOf(s, n).i == |list|
      ensures Runs(s, [Finish(n)])
      ensures var t := End(s, [Finish(n)]); Inv(t) && NodeOf(t, n).Finished? && Level(t) == |list|
    {
      hide Inv, Valid, Calm;
      WalkingOk(s, n);
      CalmIsQuiet(s);
      OneAction(s, Finish(n));
      StepKeeps(s, Finish(n));
    }

    // ----- Repairs happen exactly when some migration finds itself in place -----

    /** A node running alone reaches every migration whose predecessors succeed. */
    lemma {:induction false} Solo(k: nat) returns (acts: seq<Action>)
      requires Valid() && k <= |list| && (k0 <= k ==> After(k).Ok?)
      ensures Runs(Init(), acts)
      ensures var t := End(Init(), acts);
              && Inv(t) && Calm(t) && NodeOf(t, 0) == Walking(db0.versions, k)
              && Level(t) == if k < k0 then k0 else k
      decreases k
    {
      hide Valid, Inv, Calm, After, Do, Enabled, Level, CleanAt, Runs, End;
      if k == 0 {
        acts := [Boot(0)];
        SoloBoot();
      } else {
        if k0 < k {
          AfterMonotone(k - 1, k);
          SuccessIsClean(k - 1);
        }
        RecordedAtStart(k - 1);
        var before := Solo(k - 1);
        var t := End(Init(), before);
        InvMeans(t);
        var more := WalkOne(t, 0);
        RunsConcat(Init(), before, more);
        acts := before + more;
        WalkingOk(End(t, more), 0);
      }
    }

    lemma SoloBoot()
      requires Valid()
      ensures Runs(Init(), [Boot(0)])
      ensures var t := End(Init(), [Boot(0)]);
              Inv(t) && Calm(t) && NodeOf(t, 0) == Walking(db0.versions, 0) && Level(t) == k0
    {
      hide Valid, Inv, Calm;
      InitOk();
      InitCalm();
      OneAction(Init(), Boot(0));
      StepKeeps(Init(), Boot(0));
      StepCalm(Init(), Boot(0));
    }

    lemma RecordedAtStart(i: nat)
      requires Valid() && i < |list|
      ensures list[i].version in db0.versions <==> i < k0
    {
    }

    /** If a migration does find itself in place, a node running alone starts a repair. */
    lemma UncleanRepairs(k: nat) returns (acts: seq<Action>)
      requires Valid() && k0 <= k < |list| && !CleanAt(k)
      ensures Runs(Init(), acts) && !Quiet(End(Init(), acts))
    {
      hide Valid, Inv, Calm, After, Classify, Fire, Level, Migration.Batch, Engine.Transaction;
      var before := Solo(k);
      var t := End(Init(), before);
      RecordedAtStart(k);
      InvMeans(t);
      var s1 := Do(t, Send(0));
      var s2 := Do(s1, Execute(0));
      assert NodeOf(s2, 0) == Replied(db0.versions, k, engine.Transaction(t.db, list[k].Batch()).1) by {
        PutNode(t, 0, Sent(db0.versions, k));
        PutNode(Fire(s1, k), 0, Replied(db0.versions, k, engine.Transaction(t.db, list[k].Batch()).1));
      }
      assert NodeOf(Do(s2, Receive(0)), 0) == Repairing(db0.versions, k, 0);
      ThreeActions(t, Send(0), Execute(0), Receive(0));
      RunsConcat(Init(), before, [Send(0), Execute(0), Receive(0)]);
      acts := before + [Send(0), Execute(0), Receive(0)];
    }

    lemma PutNode(s: Sys<U>, n: nat, x: Node)
      ensures NodeOf(Put(s, n, x), n) == x && Put(s, n, x).db == s.db
    {
    }

    lemma {:induction false} QuietAtEnd(s: Sys<U>, acts: seq<Action>)
      requires Runs(s, acts) && QuietRun(s, acts)
      ensures Quiet(End(s, acts))
      decreases acts
    {
      hide Quiet, Do, Enabled;
      if acts != [] { QuietAtEnd(Do(s, acts[0]), acts[1..]); }
    }

    /** No run of any number of nodes ever repairs, exactly when on the state its
        predecessors leave no migration finds its schema in place. */
    lemma NoRepairExactlyWhenClean()
      requires Valid()
      ensures Clean() <==> forall acts | Runs(Init(), acts) :: QuietRun(Init(), acts)
    {
      hide Honest, Clean, CleanAt, Runs, Quiet;
      if Clean() {
        forall acts | Runs(Init(), acts) ensures QuietRun(Init(), acts) {
          InitOk();
          InitCalm();
          CleanRunsAreQuiet(Init(), acts);
        }
      } else {
        var k := UncleanAt();
        var acts := UncleanRepairs(k);
        if QuietRun(Init(), acts) { QuietAtEnd(Init(), acts); }
      }
    }

    lemma UncleanAt() returns (k: nat)
      requires !Clean() && k0 <= |list|
      ensures k0 <= k < |list| && !CleanAt(k)
    {
      hide CleanAt;
      k :| k0 <= k < |list| && !CleanAt(k);
    }

    // ----- The steps of a repair are those of the sequential one -----

    /** One request of a repair, sent, run and heard with no one between. */
    lemma RepairStep(s: Sys<U>, n: nat)
      requires NodeOf(s, n).Repairing? && Legal(RepairOf(NodeOf(s, n).i, NodeOf(s, n).j))
      ensures Runs(s, [Ask(n), Mend(n), Hear(n)])
      ensures var x := NodeOf(s, n);
              var t := End(s, [Ask(n), Mend(n), Hear(n)]);
              var (d, r) := engine.Transaction(s.db, RepairStmts(x.i, x.j));
              t.db == d && NodeOf(t, n) == HeardRepair(Told(x.snap, x.i, x.j, r))
    {
      hide Legal, RepairStmts, HeardRepair, Engine.Transaction;
      ThreeActions(s, Ask(n), Mend(n), Hear(n));
    }

    /** Migration i's sequential repair from statement j on. */
    function RepairFrom(d: Db<U>, i: nat, j: nat): (Db<U>, Reply)
      requires Legal(RepairOf(i, j))
    {
      var (d', r) := RepairBody(engine, d, list[i].Body()[j..]);
      if r.Failed? then (d', r) else engine.Transaction(d', [InsertOrIgnoreVersion(list[i].version)])
    }

    lemma RepairFromStep(d: Db<U>, i: nat, j: nat)
      requires Legal(RepairOf(i, j))
      ensures var (d', r) := engine.Transaction(d, RepairStmts(i, j));
              RepairFrom(d, i, j) == if j == |list[i].Body()| || (r.Failed? && !IsIdempotentError(r.msg)) then (d', r)
                                     else RepairFrom(d', i, j + 1)
    {
      hide Engine.Transaction, IsIdempotentError, Migration.Body;
      var body := list[i].Body();
      if j < |body| {
        assert body[j..][0] == body[j] && body[j..][1..] == body[j + 1..];
      } else {
        assert body[j..] == [];
      }
    }

    /** A repairing node that no one interrupts does to the database what the sequential
        repair does, and goes on or stops as it says. */
    lemma {:induction false} RepairsLikeOne(s: Sys<U>, n: nat) returns (acts: seq<Action>)
      requires NodeOf(s, n).Repairing? && Legal(RepairOf(NodeOf(s, n).i, NodeOf(s, n).j))
      ensures Runs(s, acts) && forall a | a in acts :: a in {Ask(n), Mend(n), Hear(n)}
      ensures var x := NodeOf(s, n);
              var (d, r) := RepairFrom(s.db, x.i, x.j);
              && End(s, acts).db == d
              && NodeOf(End(s, acts), n) == if r.Failed? then Stopped(r.msg) else Walking(x.snap, x.i + 1)
      ensures var x := NodeOf(s, n);
              x.j == 0 ==> RepairFrom(s.db, x.i, 0) == Repaired(engine, s.db, list[x.i])
      decreases |list[NodeOf(s, n).i].Body()| - NodeOf(s, n).j
    {
      hide Engine.Transaction, IsIdempotentError, Migration.Body, Do, Enabled, RepairStmts, RepairFrom, RepairBody;
      var x := NodeOf(s, n);
      acts := [Ask(n), Mend(n), Hear(n)];
      RepairStep(s, n);
      RepairFromStep(s.db, x.i, x.j);
      RepairFromStart(s.db, x.i);
      var t := End(s, acts);
      if NodeOf(t, n).Repairing? {
        var rest := RepairsLikeOne(t, n);
        RunsConcat(s, acts, rest);
        acts := acts + rest;
      }
    }

    lemma RepairFromStart(d: Db<U>, i: nat)
      requires Legal(RepairOf(i, 0))
      ensures RepairFrom(d, i, 0) == Repaired(engine, d, list[i])
    {
      hide Engine.Transaction, RepairBody, Migration.Body;
      assert list[i].Body()[0..] == list[i].Body();
    }

    // ----- The sequential migrator refined -----

    /** How far a single run gets: to the first migration that fails for good. */
    function Furthest(k: nat): (r: nat)
      requires k0 <= k <= |list|
      ensures k <= r <= |list|
      decreases |list| - k
    {
      if k < |list| && After(k + 1).Ok? then Furthest(k + 1) else k
    }

    lemma {:induction false} FurthestIsLast(k: nat, j: nat)
      requires k0 <= k <= j <= |list| && After(j).Ok?
      ensures j <= Furthest(k)
      decreases j - k
    {
      hide Migration.Batch, Engine.ExecAll;
      if k < j {
        AfterMonotone(k + 1, j);
        FurthestIsLast(k + 1, j);
      }
    }

    lemma {:induction false} FurthestOk(k: nat)
      requires k0 <= k <= |list| && After(k).Ok?
      ensures After(Furthest(k)).Ok? && (Furthest(k) < |list| ==> !After(Furthest(k) + 1).Ok?)
      decreases |list| - k
    {
      hide Migration.Batch, Engine.ExecAll;
      if k < |list| && After(k + 1).Ok? { FurthestOk(k + 1); }
    }

    /** One node alone, from migration k on: it gets as far as migrations succeed. */
    lemma {:induction false} WalkAlone(k: nat)
      requires Valid() && Clean() && k0 <= k <= |list| && After(k).Ok?
      ensures After(Furthest(k)).Ok?
      ensures var (d, r) := Walk(engine, After(k).db, db0.versions, list[k..]);
              d == After(Furthest(k)).db && (r.Done? <==> Furthest(k) == |list|)
      decreases |list| - k
    {
      hide Honest, Migration.Batch, Engine.ExecAll, IsVersionTaken, IsIdempotentError;
      FurthestOk(k);
      if k < |list| {
        CleanEverywhere(k);
        assert list[k..][0] == list[k] && list[k..][1..] == list[k + 1..];
        AfterVersions(k);
        AfterNext(k);
        FirstApply(After(k).db, k);
        if After(k + 1).Ok? {
          WalkAlone(k + 1);
        }
      }
    }

    lemma {:induction false} WalkSkips(k: nat)
      requires Valid() && k <= k0
      ensures Walk(engine, db0, db0.versions, list[k..]) == Walk(engine, db0, db0.versions, list[k0..])
      decreases k0 - k
    {
      hide Honest, Migration.Batch, Engine.Transaction, Repaired, Classify;
      if k < k0 {
        assert list[k..][0] == list[k] && list[k..][1..] == list[k + 1..];
        WalkSkips(k + 1);
      }
    }

    /** Every state any number of nodes can bring the database to is one the single
        sequential run passes through; and if any node finishes, the database is what
        that run ends with, each pending migration applied exactly once, in order. */
    lemma RefinesSequentialRun(acts: seq<Action>)
      requires Valid() && Clean() && Runs(Init(), acts)
      ensures var t := End(Init(), acts);
              && Level(t) <= Furthest(k0) && After(Level(t)) == Ok(t.db)
              && (forall j | 0 <= j < |t.log| :: t.log[j] == k0 + j)
      ensures var t := End(Init(), acts);
              (exists n :: n in t.nodes && t.nodes[n].Finished?) ==>
                Walk(engine, db0, db0.versions, list) == (t.db, Done) && |t.log| == |list| - k0
    {
      hide Valid, Clean, Honest, Walk;
      InitOk();
      InitCalm();
      CleanRunsAreQuiet(Init(), acts);
      var t := End(Init(), acts);
      InvMeans(t);
      FurthestIsLast(k0, Level(t));
      WalkAll();
    }

    lemma InitCalm()
      ensures Calm(Init())
    {
    }

    lemma InvMeans(t: Sys<U>)
      requires Inv(t)
      ensures k0 <= Level(t) <= |list| && After(Level(t)) == Ok(t.db)
      ensures forall j | 0 <= j < |t.log| :: t.log[j] == k0 + j
      ensures forall n | n in t.nodes && t.nodes[n].Finished? :: Level(t) == |list|
    {
    }

    lemma WalkAll()
      requires Valid() && Clean()
      ensures After(Furthest(k0)).Ok?
      ensures var (d, r) := Walk(engine, db0, db0.versions, list);
              d == After(Furthest(k0)).db && (r.Done? <==> Furthest(k0) == |list|)
    {
      hide Honest, Clean, Walk;
      WalkSkips(0);
      assert list[0..] == list;
      WalkAlone(k0);
    }
  }
}
