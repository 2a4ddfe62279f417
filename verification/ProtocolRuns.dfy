/** The steps of a node, taken with no one between, are those of Run (migrator.go). */
module ProtocolRuns {
  import opened Database
  import opened Migrator
  import opened Protocol

  /** The actions of node n itself, without crashes and lost replies. */
  predicate Own(a: Action, n: nat) {
    a in {Boot(n), Skip(n), Send(n), Execute(n), Receive(n), Ask(n), Mend(n), Hear(n), Finish(n)}
  }

  /** One batch, sent, run and heard. */
  lemma ApplyStep<U(!new)>(setup: Setup<U>, s: Sys<U>, n: nat)
    requires NodeOf(s, n).Walking? && NodeOf(s, n).i < |setup.list|
    requires setup.list[NodeOf(s, n).i].version !in NodeOf(s, n).snap
    ensures setup.Runs(s, [Send(n), Execute(n), Receive(n)])
    ensures var x := NodeOf(s, n);
            var t := setup.End(s, [Send(n), Execute(n), Receive(n)]);
            var (d, r) := setup.engine.Transaction(s.db, setup.list[x.i].Batch());
            t.db == d && NodeOf(t, n) == setup.Heard(Replied(x.snap, x.i, r))
  {
    hide Migration.Batch, Engine.Transaction, Setup.Heard;
    setup.ThreeActions(s, Send(n), Execute(n), Receive(n));
  }

  lemma SkipStep<U(!new)>(setup: Setup<U>, s: Sys<U>, n: nat)
    requires NodeOf(s, n).Walking? && NodeOf(s, n).i < |setup.list|
    requires setup.list[NodeOf(s, n).i].version in NodeOf(s, n).snap
    ensures setup.Runs(s, [Skip(n)])
    ensures var t := setup.End(s, [Skip(n)]);
            t.db == s.db && NodeOf(t, n) == Walking(NodeOf(s, n).snap, NodeOf(s, n).i + 1)
  {
    setup.OneAction(s, Skip(n));
  }

  lemma FinishStep<U(!new)>(setup: Setup<U>, s: Sys<U>, n: nat)
    requires NodeOf(s, n).Walking? && NodeOf(s, n).i == |setup.list|
    ensures setup.Runs(s, [Finish(n)])
    ensures var t := setup.End(s, [Finish(n)]); t.db == s.db && NodeOf(t, n) == Finished
  {
    setup.OneAction(s, Finish(n));
  }

  lemma BootStep<U(!new)>(setup: Setup<U>, s: Sys<U>, n: nat)
    requires NodeOf(s, n).Idle? || NodeOf(s, n).Finished? || NodeOf(s, n).Stopped?
    ensures setup.Runs(s, [Boot(n)])
    ensures var t := setup.End(s, [Boot(n)]); t.db == s.db && NodeOf(t, n) == Walking(s.db.versions, 0)
  {
    setup.OneAction(s, Boot(n));
  }

  /** One migration of Run's loop. */
  function One<U(!new)>(setup: Setup<U>, d: Db<U>, snap: set<string>, i: nat): (Db<U>, Reply)
    requires i < |setup.list|
  {
    if setup.list[i].version in snap then (d, Done)
    else
      var (d', r) := setup.engine.Transaction(d, setup.list[i].Batch());
      match Classify(r)
      case Applied => (d', Done)
      case TakenByOther => (d', Done)
      case InPlace => Repaired(setup.engine, d', setup.list[i])
      case Fatal(msg) => (d', Failed(msg))
  }

  lemma WalkStep<U(!new)>(setup: Setup<U>, d: Db<U>, snap: set<string>, i: nat)
    requires i < |setup.list|
    ensures var (d', r) := One(setup, d, snap, i);
            Walk(setup.engine, d, snap, setup.list[i..])
            == if r.Failed? then (d', r) else Walk(setup.engine, d', snap, setup.list[i + 1..])
  {
    hide Migration.Batch, Engine.Transaction, Classify, Repaired;
    assert setup.list[i..][0] == setup.list[i] && setup.list[i..][1..] == setup.list[i + 1..];
  }

  lemma WalkEnd<U(!new)>(setup: Setup<U>, d: Db<U>, snap: set<string>)
    ensures Walk(setup.engine, d, snap, setup.list[|setup.list|..]) == (d, Done)
  {
  }

  /** What one migration leaves of the node. */
  function After(x: Node, r: Reply): Node
    requires x.Walking?
  {
    if r.Failed? then Stopped(r.msg) else Walking(x.snap, x.i + 1)
  }

  /** The node takes one migration by steps of its own. */
  lemma TakesOne<U(!new)>(setup: Setup<U>, s: Sys<U>, n: nat) returns (acts: seq<Action>)
    requires NodeOf(s, n).Walking? && NodeOf(s, n).i < |setup.list|
    ensures setup.Runs(s, acts) && forall a | a in acts :: Own(a, n)
    ensures var x := NodeOf(s, n);
            var (d, r) := One(setup, s.db, x.snap, x.i);
            setup.End(s, acts).db == d && NodeOf(setup.End(s, acts), n) == After(x, r)
  {
    hide Migration.Batch, Engine.Transaction, Migration.Body, Repaired, IsVersionTaken, IsIdempotentError,
         Setup.Do, Setup.Enabled, Setup.Runs, Setup.End, NodeOf, Setup.RepairFrom;
    var x := NodeOf(s, n);
    if setup.list[x.i].version in x.snap {
      acts := [Skip(n)];
      SkipStep(setup, s, n);
    } else {
      acts := [Send(n), Execute(n), Receive(n)];
      ApplyStep(setup, s, n);
      var t := setup.End(s, acts);
      if NodeOf(t, n).Repairing? {
        var rest := setup.RepairsLikeOne(t, n);
        setup.RunsConcat(s, acts, rest);
        acts := acts + rest;
      }
    }
  }

  /** A walking node that no one interrupts does to the database what Run's loop does
      from there on with the versions it read, and ends as it says. */
  lemma {:induction false} RunsLikeWalk<U(!new)>(setup: Setup<U>, s: Sys<U>, n: nat) returns (acts: seq<Action>)
    requires NodeOf(s, n).Walking? && NodeOf(s, n).i <= |setup.list|
    ensures setup.Runs(s, acts) && forall a | a in acts :: Own(a, n)
    ensures var x := NodeOf(s, n);
            var (d, r) := Walk(setup.engine, s.db, x.snap, setup.list[x.i..]);
            && setup.End(s, acts).db == d
            && NodeOf(setup.End(s, acts), n) == if r.Failed? then Stopped(r.msg) else Finished
    decreases |setup.list| - NodeOf(s, n).i
  {
    hide Walk, One, Setup.Do, Setup.Enabled, Setup.Runs, Setup.End, NodeOf;
    var x := NodeOf(s, n);
    if x.i == |setup.list| {
      acts := [Finish(n)];
      FinishStep(setup, s, n);
      WalkEnd(setup, s.db, x.snap);
    } else {
      WalkStep(setup, s.db, x.snap, x.i);
      acts := TakesOne(setup, s, n);
      var t := setup.End(s, acts);
      if NodeOf(t, n).Walking? {
        var rest := RunsLikeWalk(setup, t, n);
        setup.RunsConcat(s, acts, rest);
        acts := acts + rest;
      }
    }
  }

  /** So a node that starts and is not interrupted does what Run does, whatever the other
      nodes have done and still do afterwards. */
  lemma RunsLikeRun<U(!new)>(setup: Setup<U>, s: Sys<U>, n: nat) returns (acts: seq<Action>)
    requires NodeOf(s, n).Idle? || NodeOf(s, n).Finished? || NodeOf(s, n).Stopped?
    ensures setup.Runs(s, acts) && forall a | a in acts :: Own(a, n)
    ensures var (d, r) := Walk(setup.engine, s.db, s.db.versions, setup.list);
            && setup.End(s, acts).db == d
            && NodeOf(setup.End(s, acts), n) == if r.Failed? then Stopped(r.msg) else Finished
  {
    hide Walk, Setup.Do, Setup.Enabled, Setup.Runs, Setup.End, NodeOf;
    BootStep(setup, s, n);
    var rest := RunsLikeWalk(setup, setup.End(s, [Boot(n)]), n);
    setup.RunsConcat(s, [Boot(n)], rest);
    acts := [Boot(n)] + rest;
    assert setup.list[0..] == setup.list;
  }

  /** What node n has on its way to the server. */
  function InFlight(x: Node): seq<Request> {
    match x
    case Sent(_, i) => [BatchOf(i)]
    case Asked(_, i, j) => [RepairOf(i, j)]
    case _ => []
  }

  lemma GoesAway<U(!new)>(setup: Setup<U>, s: Sys<U>, n: nat, a: Action, r: Request)
    requires InFlight(NodeOf(s, n)) == [r] && setup.Enabled(s, a)
    requires a == Crash(n, true) || (a.LoseReply? && a.n == n && a.sentAnyway)
    ensures var t := setup.Do(s, a);
            && t.db == s.db && t.log == s.log && t.wire == s.wire + multiset{r}
            && NodeOf(t, n) == if a.Crash? then Idle else Stopped(a.msg)
  {
    hide TransportError;
  }

  lemma ServedLate<U(!new)>(setup: Setup<U>, t: Sys<U>, wire: multiset<Request>, r: Request)
    requires setup.Legal(r) && t.wire == wire + multiset{r}
    ensures setup.Enabled(t, ExecuteLate(r))
    ensures setup.Do(t, ExecuteLate(r)) == setup.Serve(t, r).(wire := wire)
  {
    hide Setup.Serve, Setup.Legal;
    assert wire + multiset{r} - multiset{r} == wire;
  }

  /** What a request does depends on the database alone. */
  lemma ServeReads<U(!new)>(setup: Setup<U>, s: Sys<U>, t: Sys<U>, r: Request)
    requires setup.Legal(r) && s.db == t.db && s.log == t.log
    ensures setup.Serve(s, r).db == setup.Serve(t, r).db && setup.Serve(s, r).log == setup.Serve(t, r).log
    ensures setup.Serve(t, r).nodes == t.nodes
  {
    hide Migration.Body, Migration.Batch, Engine.Transaction;
  }

  /** The process of a waiting node dies or loses its connection, and all the same the
      server executes the request afterwards, as if the node had waited. */
  lemma OrphansArrive<U(!new)>(setup: Setup<U>, s: Sys<U>, n: nat, a: Action, r: Request)
    requires InFlight(NodeOf(s, n)) == [r] && setup.Legal(r) && setup.Enabled(s, a)
    requires a == Crash(n, true) || (a.LoseReply? && a.n == n && a.sentAnyway)
    ensures setup.Runs(s, [a, ExecuteLate(r)])
    ensures var t := setup.End(s, [a, ExecuteLate(r)]);
            && t.db == setup.Serve(s, r).db && t.log == setup.Serve(s, r).log && t.wire == s.wire
            && NodeOf(t, n) == if a.Crash? then Idle else Stopped(a.msg)
  {
    hide Setup.Serve, Setup.Enabled, Setup.Do, Setup.Legal, InFlight, Setup.Runs, Setup.End;
    var t := setup.Do(s, a);
    GoesAway(setup, s, n, a, r);
    ServedLate(setup, t, s.wire, r);
    ServeReads(setup, s, t, r);
    setup.OneAction(s, a);
    setup.OneAction(t, ExecuteLate(r));
    setup.RunsConcat(s, [a], [ExecuteLate(r)]);
    assert [a] + [ExecuteLate(r)] == [a, ExecuteLate(r)];
  }
}
