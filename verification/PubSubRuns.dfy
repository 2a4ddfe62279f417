/** Two concrete runs of the pub/sub client (pubsub_ws.go): a call that is overtaken, and
    a Close while the client is about to dial again. */
module PubSubRuns {
  import opened Options
  import opened PubSub
  import opened PubSubProtocol
  import opened PubSubLastWord

  function Chain(cl: Client, s: Sys, a: Action, rest: seq<Action>): (acts: seq<Action>)
    requires Enabled(s, a) && cl.Valid(cl.Do(s, a), rest)
    ensures cl.Valid(s, acts) && cl.Run(s, acts) == cl.Run(cl.Do(s, a), rest)
  {
    assert ([a] + rest)[1..] == rest;
    [a] + rest
  }

  /** The client just connected for the first time, with no subscription. */
  function Connected0(): Sys {
    Sys(Fields(Some(0), map[], 0, false), multiset{Reading(0)}, multiset{}, {0}, map[], 1)
  }

  lemma Swaps(t: Task, next: Task)
    ensures multiset{t} - multiset{t} + Bag(Some(next)) == multiset{next}
  {
  }

  lemma FirstSteps(cl: Client, s1: Sys, s2: Sys, s3: Sys)
    requires s1 == cl.Start().(tasks := multiset{Dialing})
    requires s2 == s1.(tasks := multiset{Connected(0)}, live := {0}, dialled := 1)
    requires s3 == Connected0().(tasks := multiset{Sending(0, map[])})
    ensures Enabled(cl.Start(), DialStart) && cl.Do(cl.Start(), DialStart) == s1
    ensures Enabled(s1, DialOk) && cl.Do(s1, DialOk) == s2
    ensures Enabled(s2, Install(0)) && cl.Do(s2, Install(0)) == s3
    ensures Enabled(s3, StartRead(0)) && cl.Do(s3, StartRead(0)) == Connected0()
  {
    hide RawDelay, Bag, Written, Owes;
    Swaps(Cleared, Dialing);
    Swaps(Dialing, Connected(0));
    Swaps(Connected(0), Sending(0, map[]));
    Swaps(Sending(0, map[]), Reading(0));
  }

  lemma FirstConnect(cl: Client, rest: seq<Action>) returns (acts: seq<Action>)
    requires cl.Valid(Connected0(), rest)
    ensures cl.Valid(cl.Start(), acts) && cl.Run(cl.Start(), acts) == cl.Run(Connected0(), rest)
  {
    hide *;
    var s1 := cl.Start().(tasks := multiset{Dialing});
    var s2 := s1.(tasks := multiset{Connected(0)}, live := {0}, dialled := 1);
    var s3 := Connected0().(tasks := multiset{Sending(0, map[])});
    FirstSteps(cl, s1, s2, s3);
    acts := Chain(cl, cl.Start(), DialStart, Chain(cl, s1, DialOk, Chain(cl, s2, Install(0),
      Chain(cl, s3, StartRead(0), rest))));
  }

  lemma UserStep(cl: Client, s: Sys, a: Action, c: nat, ch: string)
    requires s.f.conn == Some(c) && Says(a, ch).Some?
    ensures Enabled(s, a) && cl.Do(s, a).owed == s.owed + multiset{OwedMsg(c, Says(a, ch).value)}
    ensures cl.Do(s, a) == s.(f := cl.Do(s, a).f, owed := cl.Do(s, a).owed)
    ensures cl.Do(s, a).f == s.f.(subs := if a.UserSubscribe? then s.f.subs[ch := a.consumer] else s.f.subs - {ch})
  {
    hide RawDelay, Written;
  }

  lemma WriteOne(cl: Client, s: Sys, c: nat, m: Msg, rest: multiset<Owed>)
    requires s.owed == rest + multiset{OwedMsg(c, m)}
    ensures Enabled(s, Write(OwedMsg(c, m)))
    ensures cl.Do(s, Write(OwedMsg(c, m))) == s.(owed := rest, wire := Written(s, c, m))
  {
    hide RawDelay, Written;
    assert s.owed - multiset{OwedMsg(c, m)} == rest;
  }

  lemma Overtaking(cl: Client) returns (acts: seq<Action>)
    ensures cl.Valid(Connected0(), acts)
    ensures var e := cl.Run(Connected0(), acts);
            e.f == Connected0().f && e.owed == multiset{} && e.tasks == multiset{Reading(0)} &&
            Wire(e, 0) == [UnsubMsg("a"), SubMsg("a", "x")]
  {
    hide Client.Valid, Client.Run, Client.Do, Enabled;
    var s := Connected0();
    var sub, unsub := SubMsg("a", "x"), UnsubMsg("a");
    UserStep(cl, s, UserSubscribe("a", "x"), 0, "a");
    var s1 := cl.Do(s, UserSubscribe("a", "x"));
    UserStep(cl, s1, UserUnsubscribe("a"), 0, "a");
    var s2 := cl.Do(s1, UserUnsubscribe("a"));
    assert map["a" := "x"] - {"a"} == map[];
    WriteOne(cl, s2, 0, unsub, multiset{OwedMsg(0, sub)});
    var s3 := cl.Do(s2, Write(OwedMsg(0, unsub)));
    WriteOne(cl, s3, 0, sub, multiset{});
    var s4 := cl.Do(s3, Write(OwedMsg(0, sub)));
    assert Wire(s4, 0) == [unsub] + [sub];
    EmptyRun(cl, s4);
    acts := Chain(cl, s, UserSubscribe("a", "x"), Chain(cl, s1, UserUnsubscribe("a"),
      Chain(cl, s2, Write(OwedMsg(0, unsub)), Chain(cl, s3, Write(OwedMsg(0, sub)), []))));
  }

  /** A race: an Unsubscribe overtakes the Subscribe it cancels, and the
      server keeps the subscription although nothing is left to write. */
  lemma OvertakenSubscribe(cl: Client) returns (acts: seq<Action>)
    ensures cl.Valid(cl.Start(), acts)
    ensures var e := cl.Run(cl.Start(), acts);
            e.f.conn == Some(0) && "a" !in e.f.subs && e.owed == multiset{} && e.tasks == multiset{Reading(0)} &&
            Wire(e, 0) == [UnsubMsg("a"), SubMsg("a", "x")] && !Agrees(e, "a")
  {
    hide Client.Valid, Client.Run, Client.Do, Client.Start;
    var rest := Overtaking(cl);
    acts := FirstConnect(cl, rest);
  }

  // ----- Close before a redial -----

  lemma TaskStep(cl: Client, s: Sys, a: Action)
    requires TaskOf(a).Some? && s.tasks == multiset{TaskOf(a).value} && !a.SendOne?
    ensures Enabled(s, a) && cl.Do(s, a) == cl.Effect(s, a).(tasks := Bag(cl.NextTask(s, a)))
  {
    hide Client.Effect, Client.NextTask, Bag;
    assert s.tasks - multiset{TaskOf(a).value} == multiset{};
    assert multiset{} + Bag(cl.NextTask(s, a)) == Bag(cl.NextTask(s, a));
  }

  /** The connection breaks, is forgotten, and the timer lets the next dial through. */
  lemma Redial(cl: Client) returns (acts: seq<Action>)
    ensures cl.Valid(Connected0(), acts)
    ensures var e := cl.Run(Connected0(), acts);
            e.f.conn == None && !e.f.closed && e.f.subs == map[] && e.owed == multiset{} && e.live == {} &&
            e.dialled == 1 && e.tasks == multiset{Cleared}
  {
    hide Client.Valid, Client.Run, Client.Do, RawDelay;
    var s := Connected0();
    TaskStep(cl, s, ReadError(0));
    var s1 := cl.Do(s, ReadError(0));
    TaskStep(cl, s1, DropLock(0));
    var s2 := cl.Do(s1, DropLock(0));
    TaskStep(cl, s2, Reschedule);
    var s3 := cl.Do(s2, Reschedule);
    TaskStep(cl, s3, Fire);
    var s4 := cl.Do(s3, Fire);
    EmptyRun(cl, s4);
    acts := Chain(cl, s, ReadError(0), Chain(cl, s1, DropLock(0), Chain(cl, s2, Reschedule,
      Chain(cl, s3, Fire, []))));
  }

  /** From there, after a Close: the dial starts, succeeds, and its connection is stored. */
  lemma Reconnect(cl: Client, s: Sys) returns (acts: seq<Action>)
    requires s.tasks == multiset{Cleared} && s.dialled == 1 && s.live == {}
    ensures cl.Valid(s, acts)
    ensures var e := cl.Run(s, acts);
            e.f.conn == Some(1) && e.f.closed == s.f.closed && e.live == {1} && e.owed == s.owed &&
            e.tasks == multiset{Sending(1, s.f.subs)}
  {
    hide Client.Valid, Client.Run, Client.Do, RawDelay;
    TaskStep(cl, s, DialStart);
    var s1 := cl.Do(s, DialStart);
    TaskStep(cl, s1, DialOk);
    var s2 := cl.Do(s1, DialOk);
    TaskStep(cl, s2, Install(1));
    var s3 := cl.Do(s2, Install(1));
    EmptyRun(cl, s3);
    acts := Chain(cl, s, DialStart, Chain(cl, s1, DialOk, Chain(cl, s2, Install(1), [])));
  }

  /** A client that has been connected once is closed between the timer and its dial, and
      ends up closed with an open, stored connection that nothing is going to close. */
  lemma CloseBeforeRedial(cl: Client) returns (before: seq<Action>, after: seq<Action>)
    ensures cl.Valid(cl.Start(), before)
    ensures var s := cl.Do(cl.Run(cl.Start(), before), UserClose);
            && cl.Valid(s, after)
            && var e := cl.Run(s, after);
               e.f.closed && e.f.conn == Some(1) && e.live == {1} && e.owed == multiset{}
  {
    hide Client.Valid, Client.Run, Client.Start, RawDelay;
    var redial := Redial(cl);
    before := FirstConnect(cl, redial);
    var s := cl.Run(cl.Start(), before);
    after := Reconnect(cl, cl.Do(s, UserClose));
  }
}
