/** The reconnect delays in any run of the pub/sub client (pubsub_ws.go): a connection
    that is stored starts them over. */
module PubSubDelays {
  import Arithmetic
  import opened Backoff
  import opened Options
  import opened PubSub
  import opened PubSubProtocol

  /** How often the run waits for another dial. */
  function Waits(acts: seq<Action>): nat {
    if acts == [] then 0 else (if acts[0].Reschedule? then 1 else 0) + Waits(acts[1..])
  }

  function Fresh(): Fields { Fields(None, map[], 0, false) }

  lemma AttemptsDecide(f: Fields, g: Fields, base: nat, cap: nat)
    requires !f.closed && !g.closed && f.attempts == g.attempts
    ensures RescheduleSection(f, base, cap).1 == RescheduleSection(g, base, cap).1
    ensures RescheduleSection(f, base, cap).0.attempts == RescheduleSection(g, base, cap).0.attempts
    ensures !RescheduleSection(f, base, cap).0.closed
  {
    hide RawDelay;
  }

  lemma OtherSteps(client: Client, s: Sys, a: Action)
    requires Enabled(s, a) && !a.Install? && !a.Reschedule?
    ensures client.Do(s, a).f.attempts == s.f.attempts && (s.f.closed ==> client.Do(s, a).f.closed)
  {
    hide RescheduleSection, Written, Owes, Client.NextTasks, Enabled;
    DoFields(client, s, a);
  }

  lemma DoFields(client: Client, s: Sys, a: Action)
    requires Enabled(s, a)
    ensures client.Do(s, a).f == client.Effect(s, a).f
  {
    hide Client.Effect, Client.NextTasks, Enabled;
  }

  lemma RescheduleStep(client: Client, s: Sys)
    requires Enabled(s, Reschedule)
    ensures client.Do(s, Reschedule).f == RescheduleSection(s.f, client.base, client.cap).0
    ensures s.f.closed ==> client.Do(s, Reschedule).f == s.f
  {
    hide RawDelay;
  }

  lemma {:induction false} StaysClosed(client: Client, s: Sys, acts: seq<Action>)
    requires client.Valid(s, acts) && s.f.closed && forall a | a in acts :: !a.Install?
    ensures client.Run(s, acts).f.closed
    decreases |acts|
  {
    hide Enabled, Client.Do;
    if acts != [] {
      var a := acts[0];
      assert a in acts;
      if a.Reschedule? { RescheduleStep(client, s); } else { OtherSteps(client, s, a); }
      StaysClosed(client, client.Do(s, a), acts[1..]);
    }
  }

  lemma FailedStays(client: Client, n: nat)
    ensures !Failed(Fresh(), client.base, client.cap, n).closed
  {
    hide RawDelay;
    if n > 0 { FailedStays(client, n - 1); }
  }

  lemma {:induction false} CountsWaits(client: Client, s: Sys, acts: seq<Action>, n: nat)
    requires client.Valid(s, acts) && forall a | a in acts :: !a.Install?
    requires !client.Run(s, acts).f.closed
    requires s.f.attempts == Failed(Fresh(), client.base, client.cap, n).attempts
    ensures client.Run(s, acts).f.attempts == Failed(Fresh(), client.base, client.cap, n + Waits(acts)).attempts
    decreases |acts|
  {
    hide Enabled, Client.Do, RescheduleSection;
    if acts != [] {
      var a := acts[0];
      assert a in acts;
      if s.f.closed { StaysClosed(client, s, acts); }
      if a.Reschedule? {
        RescheduleStep(client, s);
        FailedStays(client, n);
        AttemptsDecide(s.f, Failed(Fresh(), client.base, client.cap, n), client.base, client.cap);
        CountsWaits(client, client.Do(s, a), acts[1..], n + 1);
      } else {
        OtherSteps(client, s, a);
        CountsWaits(client, client.Do(s, a), acts[1..], n);
      }
    }
  }

  lemma InstallStartsOver(client: Client, s: Sys, c: nat)
    requires Enabled(s, Install(c))
    ensures client.Do(s, Install(c)).f.attempts == 0
  {
    hide RawDelay, RescheduleSection;
  }

  lemma FirstDelay(base: nat, cap: nat)
    ensures RescheduleSection(Fresh(), base, cap).1 == Some(if base >= cap then cap else base)
  {
    assert Arithmetic.Pow(3, 0) == 1 && Arithmetic.Pow(2, 0) == 1;
  }

  /** From any state that stores a connection, over any run that stores no other: when
      the client waits again, not closed, the delay is that of as many failed dials in a
      row as it has waited before, and the first one is the base interval or the cap. */
  lemma DelaysSinceInstall(client: Client, s: Sys, c: nat, acts: seq<Action>)
    requires Enabled(s, Install(c)) && client.Valid(client.Do(s, Install(c)), acts)
    requires forall a | a in acts :: !a.Install?
    requires !client.Run(client.Do(s, Install(c)), acts).f.closed
    ensures var delay := RescheduleSection(client.Run(client.Do(s, Install(c)), acts).f, client.base, client.cap).1;
            && delay == DelayAt(Fresh(), client.base, client.cap, Waits(acts))
            && (Waits(acts) == 0 ==> delay == Some(if client.base >= client.cap then client.cap else client.base))
  {
    hide Enabled, Client.Do, RescheduleSection;
    var t := client.Do(s, Install(c));
    InstallStartsOver(client, s, c);
    CountsWaits(client, t, acts, 0);
    FailedStays(client, Waits(acts));
    AttemptsDecide(client.Run(t, acts).f, Failed(Fresh(), client.base, client.cap, Waits(acts)),
                   client.base, client.cap);
    FirstDelay(client.base, client.cap);
  }
}
