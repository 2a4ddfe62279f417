/** Exactly when the last message written about a channel is the one the client's map
    asks for. Subscribe and Unsubscribe write after releasing the lock, and so does the
    replay in connect, so a call that starts while another message about its channel
    is still to be written can be overtaken by it (pubsub_ws.go). */
module PubSubLastWord {
  import opened Options
  import opened PubSub
  import opened PubSubProtocol
  import opened PubSubTheorems

  function Last(w: seq<Msg>, ch: string): Option<Msg> {
    if w == [] then None
    else if w[|w| - 1].ch == ch then Some(w[|w| - 1])
    else Last(w[..|w| - 1], ch)
  }

  /** The message that puts the server where the client's map is. */
  function Want(f: Fields, ch: string): Msg {
    if ch in f.subs then SubMsg(ch, f.subs[ch]) else UnsubMsg(ch)
  }

  /** The last message about ch on the stored connection is the one wanted. A channel
      never mentioned there is not subscribed. */
  predicate Agrees(s: Sys, ch: string) {
    s.f.conn.Some? ==>
      var last := Last(Wire(s, s.f.conn.value), ch);
      last == Some(Want(s.f, ch)) || (last == None && ch !in s.f.subs)
  }

  ghost predicate Drained(s: Sys, ch: string) {
    s.f.conn.Some? ==> forall m :: !Pending(s, s.f.conn.value, ch, m)
  }

  /** Whatever order the pending messages are written in, the client and the server
      end up agreeing: nothing pending and agreement, or only the wanted message. */
  ghost predicate Settled(s: Sys, ch: string) {
    && (s.f.conn.Some? ==> forall m | Pending(s, s.f.conn.value, ch, m) :: m == Want(s.f, ch))
    && (Drained(s, ch) ==> Agrees(s, ch))
  }

  /** The message a user call about ch is going to write. */
  function Says(a: Action, ch: string): Option<Msg> {
    match a
    case UserSubscribe(c, consumer) => if c == ch then Some(SubMsg(ch, consumer)) else None
    case UserUnsubscribe(c) => if c == ch then Some(UnsubMsg(ch)) else None
    case _ => None
  }

  /** A user call about ch starts while a different message about ch is pending. */
  ghost predicate Races(s: Sys, a: Action, ch: string) {
    && Says(a, ch).Some? && s.f.conn.Some?
    && exists m :: Pending(s, s.f.conn.value, ch, m) && m != Says(a, ch).value
  }

  /** The message a step writes, and the connection. */
  function Writes(a: Action): Option<(nat, Msg)> {
    match a
    case SendOne(c, todo, ch) => if ch in todo then Some((c, SubMsg(ch, todo[ch]))) else None
    case Write(OwedMsg(c, m)) => Some((c, m))
    case _ => None
  }

  // ----- What one step does to the channel -----

  lemma WireIs(cl: Client, s: Sys, a: Action, c: nat)
    requires Enabled(s, a)
    ensures Wire(cl.Do(s, a), c) ==
            if Writes(a).Some? && Writes(a).value.0 == c then Wire(s, c) + [Writes(a).value.1] else Wire(s, c)
  {
    hide RawDelay, Client.NextTasks;
  }

  lemma LastOf(w: seq<Msg>, m: Msg, ch: string)
    ensures Last(w + [m], ch) == if m.ch == ch then Some(m) else Last(w, ch)
  {
    assert (w + [m])[..|w|] == w;
  }

  lemma LastIs(cl: Client, s: Sys, a: Action, c: nat, ch: string)
    requires Enabled(s, a)
    ensures Last(Wire(cl.Do(s, a), c), ch) ==
            if Writes(a).Some? && Writes(a).value.0 == c && Writes(a).value.1.ch == ch
            then Some(Writes(a).value.1) else Last(Wire(s, c), ch)
  {
    hide Last, Client.Do, Writes, Enabled, Wire;
    WireIs(cl, s, a, c);
    if Writes(a).Some? { LastOf(Wire(s, c), Writes(a).value.1, ch); }
  }

  lemma WantIs(cl: Client, s: Sys, a: Action, ch: string)
    requires Enabled(s, a)
    ensures Want(cl.Do(s, a).f, ch) == if Says(a, ch).Some? then Says(a, ch).value else Want(s.f, ch)
    ensures Says(a, ch).Some? ==> cl.Do(s, a).f.conn == s.f.conn
    ensures Writes(a).Some? ==> cl.Do(s, a).f == s.f
  {
    hide RawDelay, Client.NextTasks, Written;
  }

  lemma OwedFrom(cl: Client, s: Sys, a: Action, c: nat, m: Msg)
    requires Enabled(s, a) && OwedMsg(c, m) in cl.Effect(s, a).owed
    ensures OwedMsg(c, m) in s.owed || (s.f.conn == Some(c) && Says(a, m.ch) == Some(m))
  {
    hide RawDelay, Written;
  }

  lemma TodoFrom(cl: Client, s: Sys, a: Action, c: nat, m: Msg)
    requires Sole(s) && Enabled(s, a) && The(cl.Do(s, a).tasks) == cl.NextThe(s, a)
    requires InTodo(cl.Do(s, a), c, m)
    ensures InTodo(s, c, m) || a == Install(c)
  {
    hide The, Client.NextTasks, Bag, Client.Effect;
    if TaskOf(a).Some? { Only(s, TaskOf(a).value); }
  }

  /** Pending messages come from pending messages, the caller, or the copy at Install. */
  lemma PendingComes(cl: Client, s: Sys, a: Action, c: nat, m: Msg)
    requires Sole(s) && Enabled(s, a) && The(cl.Do(s, a).tasks) == cl.NextThe(s, a)
    requires Pending(cl.Do(s, a), c, m.ch, m)
    ensures || Pending(s, c, m.ch, m)
            || (s.f.conn == Some(c) && Says(a, m.ch) == Some(m))
            || a == Install(c)
  {
    hide The, Client.NextTasks, Client.NextThe, Sole, Bag, Client.Effect, InTodo, Says;
    if OwedMsg(c, m) in cl.Effect(s, a).owed { OwedFrom(cl, s, a, c, m); } else { TodoFrom(cl, s, a, c, m); }
  }

  /** A user call's own message is pending after its section. */
  lemma SaysPending(cl: Client, s: Sys, a: Action, ch: string)
    requires Enabled(s, a) && Says(a, ch).Some? && s.f.conn.Some?
    ensures Pending(cl.Do(s, a), s.f.conn.value, ch, Says(a, ch).value)
  {
    hide Client.NextTasks, RawDelay, Written, InTodo;
  }

  lemma OwedStays(cl: Client, s: Sys, a: Action, c: nat, m: Msg)
    requires Enabled(s, a) && OwedMsg(c, m) in s.owed
    ensures OwedMsg(c, m) in cl.Effect(s, a).owed || Writes(a) == Some((c, m))
  {
    hide RawDelay, Written;
  }

  lemma TodoStays(cl: Client, s: Sys, a: Action, c: nat, m: Msg)
    requires Sole(s) && Enabled(s, a) && The(cl.Do(s, a).tasks) == cl.NextThe(s, a)
    requires InTodo(s, c, m)
    ensures InTodo(cl.Do(s, a), c, m) || Writes(a) == Some((c, m))
  {
    hide The, Client.NextTasks, Bag, Client.Effect;
    if TaskOf(a).Some? { Only(s, TaskOf(a).value); }
  }

  lemma PendingStays(cl: Client, s: Sys, a: Action, c: nat, m: Msg)
    requires Sole(s) && Enabled(s, a) && The(cl.Do(s, a).tasks) == cl.NextThe(s, a)
    requires Pending(s, c, m.ch, m)
    ensures Pending(cl.Do(s, a), c, m.ch, m) || Writes(a) == Some((c, m))
  {
    hide The, Client.NextTasks, Client.NextThe, Sole, Bag, Client.Effect, InTodo, Writes;
    if OwedMsg(c, m) in s.owed { OwedStays(cl, s, a, c, m); } else { TodoStays(cl, s, a, c, m); }
  }

  /** What is written was pending. */
  lemma WrittenWasPending(s: Sys, a: Action)
    requires Inv(s) && Enabled(s, a) && Writes(a).Some?
    ensures Pending(s, Writes(a).value.0, Writes(a).value.1.ch, Writes(a).value.1)
  {
    if TaskOf(a).Some? { Only(s, TaskOf(a).value); }
  }

  lemma InstallWire(s: Sys, c: nat)
    requires Inv(s) && Enabled(s, Install(c))
    ensures Wire(s, c) == [] && forall m :: OwedMsg(c, m) !in s.owed
  {
    Only(s, Connected(c));
  }

  lemma InstallSettles(cl: Client, s: Sys, c: nat, ch: string)
    requires Inv(s) && Enabled(s, Install(c))
    ensures Settled(cl.Do(s, Install(c)), ch)
  {
    hide Inv, The, Client.NextTasks, Sole;
    var a := Install(c);
    cl.StepKeeps(s, a);
    InstallWire(s, c);
    cl.InstallCopies(s, c);
    var s' := cl.Do(s, a);
    if ch in s'.f.subs {
      assert Pending(s', c, ch, SubMsg(ch, s'.f.subs[ch]));
    }
  }

  /** A user call about ch leaves the channel settled exactly when it does not race. */
  lemma UserSettles(cl: Client, s: Sys, a: Action, ch: string)
    requires Inv(s) && Enabled(s, a) && Settled(s, ch) && Says(a, ch).Some?
    ensures Settled(cl.Do(s, a), ch) <==> !Races(s, a, ch)
  {
    hide Inv, The, Client.Do, Sole, Pending, Want, Last, Wire, Says, Enabled, Client.NextThe;
    var s' := cl.Do(s, a);
    cl.StepKeeps(s, a);
    InvSole(s);
    WantIs(cl, s, a, ch);
    if s.f.conn.Some? {
      var c := s.f.conn.value;
      SaysPending(cl, s, a, ch);
      forall m: Msg | m.ch == ch
        ensures Pending(s', c, ch, m) <==> Pending(s, c, ch, m) || m == Says(a, ch).value
      {
        SaysOnly(cl, s, a, c, ch, m);
      }
      PendingAbout(s, c, ch);
      PendingAbout(s', c, ch);
    }
  }

  lemma PendingAbout(s: Sys, c: nat, ch: string)
    ensures forall m | Pending(s, c, ch, m) :: m.ch == ch
  {
  }

  lemma SaysOnly(cl: Client, s: Sys, a: Action, c: nat, ch: string, m: Msg)
    requires Inv(s) && Enabled(s, a) && Says(a, ch).Some? && s.f.conn == Some(c) && m.ch == ch
    requires The(cl.Do(s, a).tasks) == cl.NextThe(s, a)
    ensures Pending(cl.Do(s, a), c, ch, m) <==> Pending(s, c, ch, m) || m == Says(a, ch).value
  {
    hide Inv, The, Client.Do, Pending, Client.NextThe, Enabled;
    InvSole(s);
    SaysPending(cl, s, a, ch);
    if Pending(cl.Do(s, a), c, ch, m) { PendingComes(cl, s, a, c, m); }
    if Pending(s, c, ch, m) { PendingStays(cl, s, a, c, m); }
  }

  /** Every other step but the installation keeps the channel settled. */
  lemma OtherSettles(cl: Client, s: Sys, a: Action, ch: string)
    requires Inv(s) && Enabled(s, a) && Settled(s, ch) && Says(a, ch).None? && !a.Install?
    ensures Settled(cl.Do(s, a), ch)
  {
    hide Inv, The, Client.Effect, Client.NextTasks, Sole, Pending, Want, Last, Wire, Says, Enabled, Client.NextThe,
      Writes;
    var s' := cl.Do(s, a);
    cl.StepKeeps(s, a);
    InvSole(s);
    WantIs(cl, s, a, ch);
    if s'.f.conn.Some? {
      KeptConn(cl, s, a);
      var c := s'.f.conn.value;
      PendingAbout(s, c, ch);
      PendingAbout(s', c, ch);
      forall m | Pending(s', c, ch, m)
        ensures Pending(s, c, ch, m)
      {
        PendingComes(cl, s, a, c, m);
      }
      LastIs(cl, s, a, c, ch);
      if Writes(a).Some? && Writes(a).value.0 == c && Writes(a).value.1.ch == ch {
        WrittenWasPending(s, a);
      } else if m :| Pending(s, c, ch, m) {
        PendingStays(cl, s, a, c, m);
      } else {
        SubsKept(cl, s, a, ch);
      }
    }
  }

  lemma KeptConn(cl: Client, s: Sys, a: Action)
    requires Enabled(s, a) && !a.Install? && cl.Do(s, a).f.conn.Some?
    ensures cl.Do(s, a).f.conn == s.f.conn
  {
    hide RawDelay, Client.NextTasks, Written;
  }

  lemma SubsKept(cl: Client, s: Sys, a: Action, ch: string)
    requires Enabled(s, a) && Says(a, ch).None?
    ensures ch in cl.Effect(s, a).f.subs <==> ch in s.f.subs
  {
    hide RawDelay, Written;
  }

  // ----- Runs -----

  /** A step leaves a settled channel settled exactly when it does not race. */
  lemma StepSettles(cl: Client, s: Sys, a: Action, ch: string)
    requires Inv(s) && Enabled(s, a) && Settled(s, ch)
    ensures Settled(cl.Do(s, a), ch) <==> !Races(s, a, ch)
  {
    hide Inv, Client.Do, Settled;
    if Says(a, ch).Some? {
      UserSettles(cl, s, a, ch);
    } else if a.Install? {
      InstallSettles(cl, s, a.c, ch);
    } else {
      OtherSettles(cl, s, a, ch);
    }
  }

  /** The run writes messages and does nothing else. */
  predicate OnlyWrites(acts: seq<Action>) {
    forall a | a in acts :: Writes(a).Some?
  }

  /** However the pending messages are written, the client and the server agree. */
  ghost predicate WillAgree(cl: Client, s: Sys, ch: string) {
    forall acts | cl.Valid(s, acts) && OnlyWrites(acts) && Drained(cl.Run(s, acts), ch) ::
      Agrees(cl.Run(s, acts), ch)
  }

  lemma {:induction false} WritesSettle(cl: Client, s: Sys, acts: seq<Action>, ch: string)
    requires Inv(s) && Settled(s, ch) && cl.Valid(s, acts) && OnlyWrites(acts)
    ensures Settled(cl.Run(s, acts), ch)
    decreases |acts|
  {
    hide Inv, Client.Do, Settled, Enabled;
    if acts != [] {
      assert Writes(acts[0]).Some?;
      cl.StepKeeps(s, acts[0]);
      StepSettles(cl, s, acts[0], ch);
      WritesSettle(cl, cl.Do(s, acts[0]), acts[1..], ch);
    }
  }

  /** The steps still to come before nothing is pending. */
  ghost function Backlog(s: Sys): nat {
    |s.owed| + if The(s.tasks).Some? && The(s.tasks).value.Sending? then |The(s.tasks).value.todo| else 0
  }

  lemma BacklogShrinks(cl: Client, s: Sys, a: Action)
    requires Inv(s) && Enabled(s, a) && Writes(a).Some?
    ensures Backlog(cl.Do(s, a)) < Backlog(s)
  {
    hide Inv, The, Client.NextTasks, Bag, Written;
    cl.StepKeeps(s, a);
    InvSole(s);
    if TaskOf(a).Some? {
      Only(s, TaskOf(a).value);
      RemoveOne(a.todo, a.ch);
    }
  }

  lemma RemoveOne(todo: map<string, string>, ch: string)
    requires ch in todo
    ensures |todo - {ch}| < |todo|
  {
    assert (todo - {ch}).Keys == todo.Keys - {ch};
    assert |todo| == |todo.Keys| && |todo - {ch}| == |(todo - {ch}).Keys|;
  }

  lemma StepThatWrites(s: Sys, c: nat, ch: string, m: Msg) returns (a: Action)
    requires Inv(s) && Pending(s, c, ch, m)
    ensures Enabled(s, a) && Writes(a) == Some((c, m))
  {
    if OwedMsg(c, m) in s.owed {
      a := Write(OwedMsg(c, m));
    } else {
      var todo := The(s.tasks).value.todo;
      assert Sending(c, todo) in s.tasks;
      a := SendOne(c, todo, ch);
    }
  }

  /** Any pending message can be the last one written. */
  lemma {:induction false} DrainTo(cl: Client, s: Sys, c: nat, ch: string, m: Msg) returns (acts: seq<Action>)
    requires Inv(s) && s.f.conn == Some(c) && Pending(s, c, ch, m)
    ensures cl.Valid(s, acts) && OnlyWrites(acts)
    ensures var e := cl.Run(s, acts);
            e.f == s.f && Drained(e, ch) && Last(Wire(e, c), ch) == Some(m)
    decreases Backlog(s)
  {
    hide Inv, The, Client.Do, Sole, Pending, Last, Wire, Enabled, Client.NextThe, Writes, Backlog;
    PendingAbout(s, c, ch);
    var a := DialStart;
    if m1 :| Pending(s, c, ch, m1) && m1 != m {
      a := StepThatWrites(s, c, ch, m1);
    } else {
      a := StepThatWrites(s, c, ch, m);
    }
    var s' := cl.Do(s, a);
    WriteStep(cl, s, a, c, ch);
    if Writes(a).value.1 != m { PendingStays(cl, s, a, c, m); }
    var rest: seq<Action> := [];
    if Pending(s', c, ch, m) {
      rest := DrainTo(cl, s', c, ch, m);
    } else {
      forall x | Pending(s', c, ch, x)
        ensures Pending(s, c, ch, x)
      {
        PendingAbout(s', c, ch);
        NotPendingElse(cl, s, a, c, ch, x);
      }
      LastIs(cl, s, a, c, ch);
    }
    acts := [a] + rest;
    assert acts[1..] == rest;
  }

  lemma WriteStep(cl: Client, s: Sys, a: Action, c: nat, ch: string)
    requires Inv(s) && Enabled(s, a) && Writes(a).Some?
    ensures Inv(cl.Do(s, a)) && Sole(s) && cl.Do(s, a).f == s.f && Backlog(cl.Do(s, a)) < Backlog(s)
    ensures The(cl.Do(s, a).tasks) == cl.NextThe(s, a)
  {
    hide Inv, The, Client.Do, Sole, Enabled, Client.NextThe, Writes, Backlog;
    cl.StepKeeps(s, a);
    InvSole(s);
    WantIs(cl, s, a, ch);
    BacklogShrinks(cl, s, a);
  }

  lemma NotPendingElse(cl: Client, s: Sys, a: Action, c: nat, ch: string, x: Msg)
    requires Inv(s) && Enabled(s, a) && Writes(a).Some? && Pending(cl.Do(s, a), c, ch, x)
    ensures Pending(s, c, ch, x)
  {
    hide Inv, The, Client.Do, Sole, Enabled, Client.NextThe, InTodo;
    WriteStep(cl, s, a, c, ch);
    PendingComes(cl, s, a, c, x);
  }

  /** Settled is exactly agreement after every order of the pending writes. */
  lemma SettledMeans(cl: Client, s: Sys, ch: string)
    requires Inv(s)
    ensures Settled(s, ch) <==> WillAgree(cl, s, ch)
  {
    hide Inv, Client.Do, Client.Valid, Client.Run, Pending, Last, Wire, Want;
    if Settled(s, ch) {
      forall acts | cl.Valid(s, acts) && OnlyWrites(acts) && Drained(cl.Run(s, acts), ch)
        ensures Agrees(cl.Run(s, acts), ch)
      {
        WritesSettle(cl, s, acts, ch);
      }
    } else if s.f.conn.Some? && exists m :: Pending(s, s.f.conn.value, ch, m) && m != Want(s.f, ch) {
      var c := s.f.conn.value;
      var m :| Pending(s, c, ch, m) && m != Want(s.f, ch);
      var acts := DrainTo(cl, s, c, ch, m);
      assert !Agrees(cl.Run(s, acts), ch);
    } else {
      EmptyRun(cl, s);
      assert cl.Run(s, []) == s;
    }
  }

  lemma EmptyRun(cl: Client, s: Sys)
    ensures cl.Valid(s, []) && cl.Run(s, []) == s && OnlyWrites([])
  {
  }

  /** No user call about ch in the run starts while a different message is pending. */
  ghost predicate RaceFree(cl: Client, s: Sys, acts: seq<Action>, ch: string)
    requires cl.Valid(s, acts)
    decreases |acts|
  {
    acts == [] || (!Races(s, acts[0], ch) && RaceFree(cl, cl.Do(s, acts[0]), acts[1..], ch))
  }

  lemma {:induction false} RaceFreeSettles(cl: Client, s: Sys, acts: seq<Action>, ch: string)
    requires Inv(s) && Settled(s, ch) && cl.Valid(s, acts) && RaceFree(cl, s, acts, ch)
    ensures Settled(cl.Run(s, acts), ch)
    decreases |acts|
  {
    hide Inv, Client.Do, Settled, Enabled, Races;
    if acts != [] {
      cl.StepKeeps(s, acts[0]);
      StepSettles(cl, s, acts[0], ch);
      RaceFreeSettles(cl, cl.Do(s, acts[0]), acts[1..], ch);
    }
  }

  lemma StartSettled(cl: Client, ch: string)
    ensures Settled(cl.Start(), ch)
  {
  }

  /** After a run in which no call about ch raced, one more step leaves the server
      agreeing with the client about ch, in every order of the pending writes,
      exactly when that step does not race either. */
  lemma LastWordExactly(cl: Client, before: seq<Action>, a: Action, ch: string)
    requires cl.Valid(cl.Start(), before) && RaceFree(cl, cl.Start(), before, ch)
    requires Enabled(cl.Run(cl.Start(), before), a)
    ensures var s := cl.Run(cl.Start(), before);
            WillAgree(cl, cl.Do(s, a), ch) <==> !Races(s, a, ch)
  {
    hide *;
    StartIs(cl);
    StartSettled(cl, ch);
    Reached(cl, before);
    RaceFreeSettles(cl, cl.Start(), before, ch);
    var s := cl.Run(cl.Start(), before);
    StepSettles(cl, s, a, ch);
    cl.StepKeeps(s, a);
    SettledMeans(cl, cl.Do(s, a), ch);
  }
}
