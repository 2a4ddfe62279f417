/** What every run of the pub/sub client keeps, and exactly when closing is final and
    the server's last word on a channel is the client's (pubsub_ws.go). */
module PubSubTheorems {
  import opened Options
  import PubSub
  import opened PubSubProtocol

  lemma StartIs(cl: Client)
    ensures Inv(cl.Start()) && The(cl.Start().tasks) == Some(Cleared)
  {
    TheBag(Some(Cleared));
  }

  lemma Reached(cl: Client, acts: seq<Action>)
    requires cl.Valid(cl.Start(), acts)
    ensures Inv(cl.Run(cl.Start(), acts))
  {
    hide *;
    StartIs(cl);
    cl.RunKeeps(cl.Start(), acts);
  }

  // ----- One cycle, one connection -----

  lemma AtMostOne(live: set<nat>, t: Option<Task>)
    requires forall c | c in live :: t.Some? && Holds(t.value, c)
    ensures |live| <= 1
  {
    if c :| c in live {
      assert live == {c};
    }
  }

  /** At any time exactly one of the reconnect cycle's stages is running, or none and
      the client is closed. At most one connection is open, and the stored and the
      open one belong to that stage. */
  lemma Lifecycle(cl: Client, acts: seq<Action>)
    requires cl.Valid(cl.Start(), acts)
    ensures var s := cl.Run(cl.Start(), acts);
            && |s.tasks| <= 1 && (s.tasks == multiset{} ==> s.f.closed)
            && |s.live| <= 1
            && (s.f.conn.Some? ==> exists t :: s.tasks == multiset{t} && Installed(t, s.f.conn.value))
            && forall c | c in s.live :: exists t :: s.tasks == multiset{t} && Holds(t, c)
  {
    Reached(cl, acts);
    var s := cl.Run(cl.Start(), acts);
    AtMostOne(s.live, The(s.tasks));
    if The(s.tasks).Some? {
      assert s.tasks == multiset{The(s.tasks).value};
    }
  }

  /** Each subscription has been written to the stored connection with its present
      consumer, or the running connect or a Subscribe call still owes it. */
  lemma NoSubscriptionLost(cl: Client, acts: seq<Action>, ch: string)
    requires cl.Valid(cl.Start(), acts)
    ensures var s := cl.Run(cl.Start(), acts);
            s.f.conn.Some? && ch in s.f.subs ==>
              var c, m := s.f.conn.value, SubMsg(ch, s.f.subs[ch]);
              || m in Wire(s, c)
              || OwedMsg(c, m) in s.owed
              || exists todo :: Sending(c, todo) in s.tasks && ch in todo && todo[ch] == m.consumer
  {
    Reached(cl, acts);
    var s := cl.Run(cl.Start(), acts);
    if s.f.conn.Some? && ch in s.f.subs {
      var c, m := s.f.conn.value, SubMsg(ch, s.f.subs[ch]);
      assert m in Wire(s, c) || Pending(s, c, ch, m);
      if InTodo(s, c, m) {
        assert Sending(c, The(s.tasks).value.todo) in s.tasks;
      }
    }
  }

  // ----- After Close -----

  function Dials(acts: seq<Action>): nat {
    if acts == [] then 0 else (if acts[0].DialStart? then 1 else 0) + Dials(acts[1..])
  }

  function Due(t: Option<Task>): nat {
    if t == Some(Cleared) then 1 else 0
  }

  lemma ClosedStep(cl: Client, s: Sys, a: Action)
    requires s.f.closed && Sole(s) && Enabled(s, a)
    ensures cl.Effect(s, a).f.closed
    ensures Due(cl.NextThe(s, a)) + (if a.DialStart? then 1 else 0) == Due(The(s.tasks))
  {
    hide The, Bag, PubSub.RawDelay, Written;
    if TaskOf(a).Some? { Only(s, TaskOf(a).value); }
  }

  lemma {:induction false} DialsLeft(cl: Client, s: Sys, acts: seq<Action>)
    requires Inv(s) && s.f.closed && cl.Valid(s, acts)
    ensures Dials(acts) <= Due(The(s.tasks))
    decreases |acts|
  {
    hide Inv, The, Due, Client.Effect, Client.NextThe, Enabled;
    if acts != [] {
      InvSole(s);
      ClosedStep(cl, s, acts[0]);
      cl.StepKeeps(s, acts[0]);
      DialsLeft(cl, cl.Do(s, acts[0]), acts[1..]);
    }
  }

  lemma InvSole(s: Sys)
    requires Inv(s)
    ensures Sole(s)
  {
  }

  /** After Close at most one more dial starts, and only one that the timer, or the
      constructor, had already let through. */
  lemma DialsAfterClose(cl: Client, before: seq<Action>, after: seq<Action>)
    requires cl.Valid(cl.Start(), before)
    requires cl.Valid(cl.Do(cl.Run(cl.Start(), before), UserClose), after)
    ensures Dials(after) <= if Cleared in cl.Run(cl.Start(), before).tasks then 1 else 0
  {
    hide *;
    Reached(cl, before);
    DialsFrom(cl, cl.Run(cl.Start(), before), after);
  }

  lemma DialsFrom(cl: Client, s: Sys, after: seq<Action>)
    requires Inv(s) && cl.Valid(cl.Do(s, UserClose), after)
    ensures Dials(after) <= if Cleared in s.tasks then 1 else 0
  {
    hide Inv, Dials, The, Client.Valid, Bag;
    cl.StepKeeps(s, UserClose);
    DialsLeft(cl, cl.Do(s, UserClose), after);
    InvSole(s);
    BagHas(The(s.tasks), Cleared);
  }

  lemma BagHas(t: Option<Task>, x: Task)
    ensures x in Bag(t) <==> t == Some(x)
  {
  }

  /** The client holds no connection, and every open one is about to be closed. */
  ghost predicate Shut(s: Sys) {
    s.f.conn.None? && forall c | c in s.live :: OwedClose(c) in s.owed
  }

  ghost predicate StaysShut(cl: Client, s: Sys) {
    forall acts | cl.Valid(s, acts) :: Shut(cl.Run(s, acts))
  }

  ghost predicate Final(s: Sys) {
    s.f.closed && Shut(s) && (The(s.tasks).Some? ==> !Opening(The(s.tasks).value))
  }

  lemma FinalStep(cl: Client, s: Sys, a: Action)
    requires Inv(s) && Final(s) && Enabled(s, a)
    ensures Final(cl.Do(s, a))
  {
    hide Inv, The, Bag, PubSub.RawDelay, Written, Client.Effect, Client.NextTasks;
    cl.StepKeeps(s, a);
    InvSole(s);
    ClosedStep(cl, s, a);
    if TaskOf(a).Some? { Only(s, TaskOf(a).value); }
    if cl.Effect(s, a).f.conn.Some? { cl.ConnComes(s, a); }
    forall c | c in cl.Effect(s, a).live
      ensures OwedClose(c) in cl.Effect(s, a).owed
    {
      cl.LiveComes(s, a, c);
      cl.CloseGoes(s, a, c);
    }
  }

  lemma {:induction false} FinalStays(cl: Client, s: Sys, acts: seq<Action>)
    requires Inv(s) && Final(s) && cl.Valid(s, acts)
    ensures Shut(cl.Run(s, acts))
    decreases |acts|
  {
    hide Inv, The, Client.Do, Enabled;
    if acts != [] {
      FinalStep(cl, s, acts[0]);
      cl.StepKeeps(s, acts[0]);
      FinalStays(cl, cl.Do(s, acts[0]), acts[1..]);
    }
  }

  function NextOpening(t: Task): Action
    requires Opening(t)
  {
    match t
    case Cleared => DialStart
    case Dialing => DialOk
    case Connected(c) => Install(c)
  }

  lemma ReopenStep(cl: Client, s: Sys, t: Task)
    requires Inv(s) && The(s.tasks) == Some(t) && Opening(t)
    ensures Enabled(s, NextOpening(t))
    ensures var s' := cl.Do(s, NextOpening(t));
            && Inv(s')
            && (t.Connected? ==> s'.f.conn == Some(t.c))
            && (t.Dialing? ==> The(s'.tasks) == Some(Connected(s.dialled)))
            && (t.Cleared? ==> The(s'.tasks) == Some(Dialing))
  {
    hide Inv, The, Client.NextTasks, Written;
    InvSole(s);
    BagHas(Some(t), t);
    cl.StepKeeps(s, NextOpening(t));
  }

  /** From a task about to open a connection, the steps up to storing it. */
  lemma Reopens(cl: Client, s: Sys, t: Task) returns (acts: seq<Action>)
    requires Inv(s) && The(s.tasks) == Some(t) && Opening(t)
    ensures cl.Valid(s, acts) && cl.Run(s, acts).f.conn.Some?
    decreases if t.Cleared? then 2 else if t.Dialing? then 1 else 0
  {
    hide Inv, The, Client.Do, Enabled;
    ReopenStep(cl, s, t);
    var s' := cl.Do(s, NextOpening(t));
    var rest: seq<Action> := [];
    if !t.Connected? {
      rest := Reopens(cl, s', if t.Cleared? then Dialing else Connected(s.dialled));
    }
    acts := [NextOpening(t)] + rest;
    assert acts[1..] == rest;
  }

  /** Close is final, so that no connection is stored again and every open one is about
      to be closed for good, exactly when the cycle was not opening a connection. */
  lemma CloseIsFinalExactly(cl: Client, before: seq<Action>)
    requires cl.Valid(cl.Start(), before)
    ensures var s := cl.Run(cl.Start(), before);
            StaysShut(cl, cl.Do(s, UserClose)) <==> forall t | t in s.tasks :: !Opening(t)
  {
    hide *;
    Reached(cl, before);
    CloseFrom(cl, cl.Run(cl.Start(), before));
  }

  lemma CloseFrom(cl: Client, s: Sys)
    requires Inv(s)
    ensures StaysShut(cl, cl.Do(s, UserClose)) <==> forall t | t in s.tasks :: !Opening(t)
  {
    hide StaysShut, The, Inv, Opening, Sole, Final, Client.Do, Client.NextTasks;
    var s1 := cl.Do(s, UserClose);
    cl.StepKeeps(s, UserClose);
    InvSole(s);
    if t :| t in s.tasks && Opening(t) {
      Only(s, t);
      var acts := Reopens(cl, s1, t);
      NotShut(cl, s1, acts);
    } else {
      if The(s.tasks).Some? { TheIn(s); }
      CloseShuts(cl, s);
      IfFinal(cl, s1);
    }
  }

  lemma TheIn(s: Sys)
    requires Sole(s) && The(s.tasks).Some?
    ensures The(s.tasks).value in s.tasks
  {
  }

  lemma CloseShuts(cl: Client, s: Sys)
    requires Inv(s) && (The(s.tasks).Some? ==> !Opening(The(s.tasks).value))
    ensures Final(cl.Do(s, UserClose))
  {
    hide The, Inv, Client.Effect, Client.NextTask;
    CloseEffect(cl, s);
    cl.StepKeeps(s, UserClose);
    InvAccounted(s);
  }

  lemma InvAccounted(s: Sys)
    requires Inv(s)
    ensures Accounted(s)
  {
  }

  lemma CloseEffect(cl: Client, s: Sys)
    ensures var t := cl.Effect(s, UserClose);
            && t.f.closed && t.f.conn.None? && t.live == s.live
            && (forall o | o in s.owed :: o in t.owed)
            && (s.f.conn.Some? ==> OwedClose(s.f.conn.value) in t.owed)
  {
  }

  lemma NotShut(cl: Client, s: Sys, acts: seq<Action>)
    requires cl.Valid(s, acts) && cl.Run(s, acts).f.conn.Some?
    ensures !StaysShut(cl, s)
  {
    assert !Shut(cl.Run(s, acts));
  }

  lemma IfFinal(cl: Client, s: Sys)
    requires Inv(s) && Final(s)
    ensures StaysShut(cl, s)
  {
    forall acts | cl.Valid(s, acts)
      ensures Shut(cl.Run(s, acts))
    {
      FinalStays(cl, s, acts);
    }
  }

  // ----- How long the cycle goes on -----

  /** The steps the cycle still takes when the client is closed and no dial is let through. */
  function StepsLeft(t: Option<Task>): Option<nat> {
    match t
    case None => Some(0)
    case Some(Reading(_)) => Some(2)
    case Some(Dropped(_)) => Some(1)
    case Some(Rescheduling) => Some(1)
    case Some(Waiting) => Some(1)
    case _ => None
  }

  function CycleSteps(acts: seq<Action>): nat {
    if acts == [] then 0 else (if TaskOf(acts[0]).Some? then 1 else 0) + CycleSteps(acts[1..])
  }

  lemma OneStepLess(cl: Client, s: Sys, a: Action)
    requires s.f.closed && Sole(s) && Enabled(s, a) && StepsLeft(The(s.tasks)).Some?
    ensures var left := StepsLeft(cl.NextThe(s, a));
            left.Some? && left.value + CycleSteps([a]) <= StepsLeft(The(s.tasks)).value
  {
    hide The, Bag, PubSub.RawDelay, Written;
    assert [a][1..] == [] && CycleSteps([]) == 0;
    if TaskOf(a).Some? { Only(s, TaskOf(a).value); }
  }

  /** When a closed client has no dial under way, its reader closes, forgets the connection
      and is gone, and a timer or a failed dial that is left ends the cycle in one step. */
  lemma {:induction false} CycleEnds(cl: Client, s: Sys, acts: seq<Action>)
    requires s.f.closed && Sole(s) && cl.Valid(s, acts) && StepsLeft(The(s.tasks)).Some?
    ensures CycleSteps(acts) <= StepsLeft(The(s.tasks)).value
    decreases |acts|
  {
    hide The, Client.Effect, Client.NextTasks, Client.NextThe, Enabled, StepsLeft, Sole, TaskOf;
    if acts != [] {
      OneStepLess(cl, s, acts[0]);
      cl.SoleKept(s, acts[0]);
      ClosedStep(cl, s, acts[0]);
      CycleEnds(cl, cl.Do(s, acts[0]), acts[1..]);
      assert [acts[0]][1..] == [] && CycleSteps([]) == 0;
    }
  }
}
