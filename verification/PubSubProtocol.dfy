/** Every interleaving of the pub/sub client's reconnect cycle with user calls
    (pubsub_ws.go). One step is one critical section, or one action on a
    connection outside the lock. */
module PubSubProtocol {
  import opened Options
  import opened PubSub

  datatype Msg = SubMsg(ch: string, consumer: string) | UnsubMsg(ch: string)

  /** Where a goroutine or timer of the reconnect cycle has got to. */
  datatype Task =
    | Cleared                                       // about to dial
    | Dialing
    | Connected(c: nat)                             // dialled, not yet stored
    | Sending(c: nat, todo: map<string, string>)    // replaying the copied subscriptions
    | Reading(c: nat)
    | Dropped(c: nat)                               // the reader has closed its connection
    | Rescheduling
    | Waiting                                       // the timer is set

  /** What a user call still has to do after its critical section. */
  datatype Owed = OwedMsg(c: nat, msg: Msg) | OwedClose(c: nat)

  /** `live` holds the connections open at this end, `wire` what was written to each. */
  datatype Sys = Sys(f: Fields, tasks: multiset<Task>, owed: multiset<Owed>,
                     live: set<nat>, wire: map<nat, seq<Msg>>, dialled: nat)

  datatype Action =
    | DialStart | DialFail | DialOk
    | Install(c: nat)
    | SendOne(c: nat, todo: map<string, string>, ch: string)
    | StartRead(c: nat)
    | ReadError(c: nat)
    | DropLock(c: nat)
    | Reschedule | Fire
    | UserSubscribe(ch: string, consumer: string) | UserUnsubscribe(ch: string) | UserClose
    | Write(o: Owed)

  function TaskOf(a: Action): Option<Task> {
    match a
    case DialStart => Some(Cleared)
    case DialFail => Some(Dialing)
    case DialOk => Some(Dialing)
    case Install(c) => Some(Connected(c))
    case SendOne(c, todo, _) => Some(Sending(c, todo))
    case StartRead(c) => Some(Sending(c, map[]))
    case ReadError(c) => Some(Reading(c))
    case DropLock(c) => Some(Dropped(c))
    case Reschedule => Some(Rescheduling)
    case Fire => Some(Waiting)
    case _ => None
  }

  predicate Enabled(s: Sys, a: Action) {
    && (TaskOf(a).Some? ==> TaskOf(a).value in s.tasks)
    && (a.SendOne? ==> a.ch in a.todo)
    && (a.Write? ==> a.o in s.owed)
  }

  function Bag(t: Option<Task>): multiset<Task> {
    if t.Some? then multiset{t.value} else multiset{}
  }

  function Wire(s: Sys, c: nat): seq<Msg> {
    if c in s.wire then s.wire[c] else []
  }

  function Written(s: Sys, c: nat, m: Msg): map<nat, seq<Msg>> {
    s.wire[c := Wire(s, c) + [m]]
  }

  function Owes(captured: Option<nat>, m: Msg): multiset<Owed> {
    if captured.Some? then multiset{OwedMsg(captured.value, m)} else multiset{}
  }

  datatype Client = Client(base: nat, cap: nat) {

    function Start(): Sys {
      Sys(Fields(None, map[], 0, false), multiset{Cleared}, multiset{}, {}, map[], 0)
    }

    /** What becomes of the goroutine or timer that took step a. */
    function NextTask(s: Sys, a: Action): Option<Task>
      requires Enabled(s, a) && TaskOf(a).Some?
    {
      match a
      case DialStart => Some(Dialing)
      case DialFail => Some(Rescheduling)
      case DialOk => Some(Connected(s.dialled))
      case Install(c) => Some(Sending(c, InstallSection(s.f, c).1))
      case SendOne(c, todo, ch) => Some(Sending(c, todo - {ch}))
      case StartRead(c) => Some(Reading(c))
      case ReadError(c) => Some(Dropped(c))
      case DropLock(c) => if DropSection(s.f, c).1 then None else Some(Rescheduling)
      case Reschedule => if RescheduleSection(s.f, base, cap).1.None? then None else Some(Waiting)
      case Fire => if s.f.closed then None else Some(Cleared)
    }

    function NextTasks(s: Sys, a: Action): multiset<Task>
      requires Enabled(s, a)
    {
      if TaskOf(a).None? then s.tasks
      else s.tasks - multiset{TaskOf(a).value} + Bag(NextTask(s, a))
    }

    /** What a step changes besides where the cycle stands. */
    function Effect(s: Sys, a: Action): Sys
      requires Enabled(s, a)
    {
      match a
      case DialOk => s.(live := s.live + {s.dialled}, dialled := s.dialled + 1)
      case Install(c) => s.(f := InstallSection(s.f, c).0)
      case SendOne(c, todo, ch) => s.(wire := Written(s, c, SubMsg(ch, todo[ch])))
      case ReadError(c) => s.(live := s.live - {c})
      case DropLock(c) => s.(f := DropSection(s.f, c).0)
      case Reschedule => s.(f := RescheduleSection(s.f, base, cap).0)
      case UserSubscribe(ch, consumer) =>
        var (f, captured) := SubscribeSection(s.f, ch, consumer);
        s.(f := f, owed := s.owed + Owes(captured, SubMsg(ch, consumer)))
      case UserUnsubscribe(ch) =>
        var (f, captured) := UnsubscribeSection(s.f, ch);
        s.(f := f, owed := s.owed + Owes(captured, UnsubMsg(ch)))
      case UserClose =>
        var (f, captured) := CloseSection(s.f);
        s.(f := f, owed := s.owed + if captured.Some? then multiset{OwedClose(captured.value)} else multiset{})
      case Write(OwedMsg(c, m)) => s.(owed := s.owed - multiset{a.o}, wire := Written(s, c, m))
      case Write(OwedClose(c)) => s.(owed := s.owed - multiset{a.o}, live := s.live - {c})
      case _ => s
    }

    function Do(s: Sys, a: Action): Sys
      requires Enabled(s, a)
    {
      Effect(s, a).(tasks := NextTasks(s, a))
    }

    predicate Valid(s: Sys, acts: seq<Action>)
      decreases |acts|
    {
      acts == [] || (Enabled(s, acts[0]) && Valid(Do(s, acts[0]), acts[1..]))
    }

    function Run(s: Sys, acts: seq<Action>): Sys
      requires Valid(s, acts)
      decreases |acts|
    {
      if acts == [] then s else Run(Do(s, acts[0]), acts[1..])
    }

    // ----- The invariant -----

    /** Where the cycle stands after a step. */
    ghost function NextThe(s: Sys, a: Action): Option<Task>
      requires Enabled(s, a)
    {
      if TaskOf(a).None? then The(s.tasks) else NextTask(s, a)
    }

    lemma TasksKept(s: Sys, a: Action)
      requires Sole(s) && Enabled(s, a)
      ensures NextTasks(s, a) == Bag(NextThe(s, a)) && The(NextTasks(s, a)) == NextThe(s, a)
    {
      hide NextTask;
      if TaskOf(a).Some? { Only(s, TaskOf(a).value); }
      TheBag(NextThe(s, a));
    }

    lemma SoleKept(s: Sys, a: Action)
      requires Sole(s) && Enabled(s, a)
      ensures Sole(Do(s, a)) && The(Do(s, a).tasks) == NextThe(s, a)
    {
      hide The, NextTasks, Bag, RawDelay;
      TasksKept(s, a);
    }

    // What one step can do to the messages owed and written.

    lemma OwedComes(s: Sys, a: Action, o: Owed)
      requires Enabled(s, a) && o in Effect(s, a).owed
      ensures o in s.owed || (s.f.conn == Some(o.c) && TaskOf(a).None?)
    {
      hide RawDelay, Written;
    }

    lemma WireComes(s: Sys, a: Action, c: nat)
      requires Enabled(s, a) && c in Effect(s, a).wire
      ensures c in s.wire || TaskOf(a) == Some(Sending(c, if a.SendOne? then a.todo else map[])) ||
              (a.Write? && a.o.c == c)
    {
      hide RawDelay;
    }

    lemma OwedGoes(s: Sys, a: Action, c: nat, m: Msg)
      requires Enabled(s, a) && OwedMsg(c, m) in s.owed
      ensures OwedMsg(c, m) in Effect(s, a).owed || m in Wire(Effect(s, a), c)
    {
      hide RawDelay;
    }

    lemma WireStays(s: Sys, a: Action, c: nat, m: Msg)
      requires Enabled(s, a) && m in Wire(s, c)
      ensures m in Wire(Effect(s, a), c)
    {
      hide RawDelay;
    }

    lemma TodoGoes(s: Sys, a: Action, c: nat, m: Msg)
      requires Sole(s) && Enabled(s, a) && InTodo(s, c, m) && The(Do(s, a).tasks) == NextThe(s, a)
      ensures InTodo(Do(s, a), c, m) || m in Wire(Effect(s, a), c)
    {
      hide The, NextTasks, Bag, RawDelay;
      if TaskOf(a).Some? { Only(s, TaskOf(a).value); }
    }

    /** A subscription was in the map before, or the step's caller owes its message. */
    lemma SubsCome(s: Sys, a: Action, ch: string)
      requires Enabled(s, a) && ch in Effect(s, a).f.subs
      ensures (ch in s.f.subs && s.f.subs[ch] == Effect(s, a).f.subs[ch]) ||
              (Effect(s, a).f.conn.Some? ==>
                OwedMsg(Effect(s, a).f.conn.value, SubMsg(ch, Effect(s, a).f.subs[ch])) in Effect(s, a).owed)
    {
      hide RawDelay, Written;
    }

    lemma ConnComes(s: Sys, a: Action)
      requires Enabled(s, a) && Effect(s, a).f.conn.Some?
      ensures Effect(s, a).f.conn == s.f.conn || (a.Install? && Effect(s, a).f.conn == Some(a.c))
    {
      hide RawDelay, Written;
    }

    lemma OwnerKept(s: Sys, a: Action, s': Sys)
      requires Inv(s) && Enabled(s, a) && s' == Do(s, a)
      requires The(s'.tasks) == NextThe(s, a)
      ensures Owner(s')
    {
      hide The, NextTasks, Bag, Effect, Fresh, NoLost, Accounted;
      if TaskOf(a).Some? {
        Only(s, TaskOf(a).value);
        Leaves(s, a);
      }
      if s'.f.conn.Some? {
        ConnComes(s, a);
        if a.Install? { InstallCopies(s, a.c); }
      }
      forall c | c in s'.live
        ensures The(s'.tasks).Some? && Holds(The(s'.tasks).value, c)
      {
        LiveComes(s, a, c);
      }
    }

    /** The reader closes its connection first and forgets it afterwards. */
    lemma Leaves(s: Sys, a: Action)
      requires Enabled(s, a)
      ensures a.ReadError? ==> a.c !in Effect(s, a).live
      ensures a.DropLock? ==> Effect(s, a).f.conn != Some(a.c)
    {
      hide RawDelay, Written;
    }

    lemma FreshKept(s: Sys, a: Action, s': Sys)
      requires Inv(s) && Enabled(s, a) && s' == Do(s, a)
      requires The(s'.tasks) == NextThe(s, a)
      ensures Fresh(s')
    {
      hide The, NextTasks, Bag, RawDelay, Effect, NoLost, Accounted;
      if TaskOf(a).Some? { Only(s, TaskOf(a).value); }
      DialledGrows(s, a);
      forall c | c in s'.wire
        ensures c < s'.dialled && (The(s'.tasks).Some? && The(s'.tasks).value.Connected? ==> The(s'.tasks).value.c != c)
      {
        WireComes(s, a, c);
      }
      forall o | o in s'.owed
        ensures o.c < s'.dialled
                && (The(s'.tasks).Some? && The(s'.tasks).value.Connected? ==> The(s'.tasks).value.c != o.c)
      {
        OwedComes(s, a, o);
      }
    }

    lemma DialledGrows(s: Sys, a: Action)
      requires Enabled(s, a)
      ensures Effect(s, a).dialled == s.dialled + if a.DialOk? then 1 else 0
    {
      hide RawDelay, Written;
    }

    lemma NoLostKept(s: Sys, a: Action, s': Sys)
      requires Inv(s) && Enabled(s, a) && s' == Do(s, a)
      requires The(s'.tasks) == NextThe(s, a)
      ensures NoLost(s')
    {
      hide The, NextTasks, Bag, RawDelay, Effect, Accounted, Fresh, Owner;
      if s'.f.conn.Some? {
        ConnComes(s, a);
        forall ch | ch in s'.f.subs
          ensures var m := SubMsg(ch, s'.f.subs[ch]);
                  m in Wire(s', s'.f.conn.value) || Pending(s', s'.f.conn.value, ch, m)
        {
          if a.Install? {
            InstallCopies(s, a.c);
          } else {
            SubsCome(s, a, ch);
            if ch in s.f.subs && s.f.subs[ch] == s'.f.subs[ch] {
              PendingGoes(s, a, s'.f.conn.value, SubMsg(ch, s'.f.subs[ch]));
            }
          }
        }
      }
    }

    lemma InstallCopies(s: Sys, c: nat)
      requires Enabled(s, Install(c)) && The(Do(s, Install(c)).tasks) == NextThe(s, Install(c))
      ensures var s' := Do(s, Install(c)); The(s'.tasks) == Some(Sending(c, s'.f.subs)) && s'.f.conn == Some(c)
    {
      hide The, NextTasks, Bag;
    }

    lemma PendingGoes(s: Sys, a: Action, c: nat, m: Msg)
      requires Sole(s) && Enabled(s, a) && The(Do(s, a).tasks) == NextThe(s, a)
      requires m in Wire(s, c) || Pending(s, c, m.ch, m)
      ensures m in Wire(Do(s, a), c) || Pending(Do(s, a), c, m.ch, m)
    {
      hide The, NextTasks, Bag, Effect, Sole, NextThe;
      if m in Wire(s, c) {
        WireStays(s, a, c, m);
      } else if OwedMsg(c, m) in s.owed {
        OwedGoes(s, a, c, m);
      } else {
        TodoGoes(s, a, c, m);
      }
    }

    lemma AccountedKept(s: Sys, a: Action, s': Sys)
      requires Inv(s) && Enabled(s, a) && s' == Do(s, a)
      requires The(s'.tasks) == NextThe(s, a)
      ensures Accounted(s')
    {
      hide The, NextTasks, Bag, Effect, Fresh, NoLost;
      if TaskOf(a).Some? { Only(s, TaskOf(a).value); }
      forall c | c in s'.live
        ensures s'.f.conn == Some(c) || OwedClose(c) in s'.owed || The(s'.tasks) == Some(Connected(c))
      {
        LiveComes(s, a, c);
        if OwedClose(c) in s.owed { CloseGoes(s, a, c); }
        if s.f.conn == Some(c) { ConnGoes(s, a, c); }
        if a.Install? { InstallCopies(s, a.c); }
      }
    }

    lemma LiveComes(s: Sys, a: Action, c: nat)
      requires Enabled(s, a) && c in Effect(s, a).live
      ensures c in s.live || (a.DialOk? && c == s.dialled)
    {
      hide RawDelay, Written;
    }

    lemma CloseGoes(s: Sys, a: Action, c: nat)
      requires Enabled(s, a) && OwedClose(c) in s.owed
      ensures OwedClose(c) in Effect(s, a).owed || c !in Effect(s, a).live
    {
      hide RawDelay, Written;
    }

    lemma ConnGoes(s: Sys, a: Action, c: nat)
      requires Enabled(s, a) && s.f.conn == Some(c)
      ensures Effect(s, a).f.conn == Some(c) || OwedClose(c) in Effect(s, a).owed || a == DropLock(c) || a.Install?
    {
      hide RawDelay, Written;
    }

    /** A step keeps every clause of the invariant. */
    lemma StepKeeps(s: Sys, a: Action)
      requires Inv(s) && Enabled(s, a)
      ensures Inv(Do(s, a)) && The(Do(s, a).tasks) == NextThe(s, a)
    {
      hide Sole, Owner, Fresh, NoLost, Accounted, Do, NextThe;
      SoleKept(s, a);
      OwnerKept(s, a, Do(s, a));
      FreshKept(s, a, Do(s, a));
      NoLostKept(s, a, Do(s, a));
      AccountedKept(s, a, Do(s, a));
    }

    lemma {:induction false} RunKeeps(s: Sys, acts: seq<Action>)
      requires Inv(s) && Valid(s, acts)
      ensures Inv(Run(s, acts))
      decreases |acts|
    {
      if acts != [] {
        StepKeeps(s, acts[0]);
        RunKeeps(Do(s, acts[0]), acts[1..]);
      }
    }
  }

  /** t has stored connection c in the client. */
  predicate Installed(t: Task, c: nat) {
    (t.Sending? || t.Reading? || t.Dropped?) && t.c == c
  }

  /** t answers for the open connection c. */
  predicate Holds(t: Task, c: nat) {
    (t.Connected? || t.Sending? || t.Reading?) && t.c == c
  }

  predicate Opening(t: Task) {
    t.Cleared? || t.Dialing? || t.Connected?
  }

  /** m is a message about ch that is still to be written to c. */
  ghost predicate Pending(s: Sys, c: nat, ch: string, m: Msg) {
    m.ch == ch && (OwedMsg(c, m) in s.owed || InTodo(s, c, m))
  }

  ghost predicate InTodo(s: Sys, c: nat, m: Msg) {
    && m.SubMsg? && The(s.tasks).Some? && The(s.tasks).value.Sending? && The(s.tasks).value.c == c
    && m.ch in The(s.tasks).value.todo && The(s.tasks).value.todo[m.ch] == m.consumer
  }

  /** The one task of the reconnect cycle, none when it has stopped. */
  ghost function The(tasks: multiset<Task>): Option<Task> {
    if t :| t in tasks then Some(t) else None
  }

  lemma TheBag(t: Option<Task>)
    ensures The(Bag(t)) == t
  {
    if t.Some? { assert t.value in Bag(t); }
  }

  ghost predicate Sole(s: Sys) {
    s.tasks == Bag(The(s.tasks)) && (The(s.tasks).None? ==> s.f.closed)
  }

  ghost predicate Owner(s: Sys) {
    && (s.f.conn.Some? ==> The(s.tasks).Some? && Installed(The(s.tasks).value, s.f.conn.value))
    && forall c | c in s.live :: The(s.tasks).Some? && Holds(The(s.tasks).value, c)
  }

  ghost predicate Fresh(s: Sys) {
    && (forall c | c in s.wire :: c < s.dialled)
    && (forall o | o in s.owed :: o.c < s.dialled)
    && (The(s.tasks).Some? ==> Numbered(s, The(s.tasks).value))
  }

  /** A connection not yet stored has had nothing written to it. */
  ghost predicate Numbered(s: Sys, t: Task) {
    && (t.Connected? || t.Sending? || t.Reading? || t.Dropped? ==> t.c < s.dialled)
    && (t.Connected? ==> t.c !in s.wire && forall o | o in s.owed :: o.c != t.c)
  }

  ghost predicate NoLost(s: Sys) {
    s.f.conn.Some? ==> forall ch | ch in s.f.subs ::
      var m := SubMsg(ch, s.f.subs[ch]);
      m in Wire(s, s.f.conn.value) || Pending(s, s.f.conn.value, ch, m)
  }

  /** Every open connection is stored, about to be stored, or about to be closed. */
  ghost predicate Accounted(s: Sys) {
    forall c | c in s.live ::
      s.f.conn == Some(c) || OwedClose(c) in s.owed || The(s.tasks) == Some(Connected(c))
  }

  ghost predicate Inv(s: Sys) {
    Sole(s) && Owner(s) && Fresh(s) && NoLost(s) && Accounted(s)
  }

  lemma Only(s: Sys, t: Task)
    requires Sole(s) && t in s.tasks
    ensures s.tasks == multiset{t} && The(s.tasks) == Some(t)
  {
  }
}
