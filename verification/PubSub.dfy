/** The WebSocket pub/sub client (pubsub_ws.go): the fields its mutex guards, one
    method for each critical section. */
module PubSub {
  import Arithmetic
  import opened Options

  /** Connections are numbered as they are dialled; a subscription is its consumer. */
  datatype Fields = Fields(conn: Option<nat>, subs: map<string, string>, attempts: nat, closed: bool)

  // ----- Backoff -----

  /** base * 1.5^(attempt-1), cut to whole units. */
  function RawDelay(base: nat, attempt: nat): nat
    requires attempt > 0
  {
    Arithmetic.PowPositive(2, attempt - 1);
    base * Arithmetic.Pow(3, attempt - 1) / Arithmetic.Pow(2, attempt - 1)
  }

  // ----- The critical sections -----

  function SubscribeSection(f: Fields, ch: string, consumer: string): (Fields, Option<nat>) {
    (f.(subs := f.subs[ch := consumer]), f.conn)
  }

  function UnsubscribeSection(f: Fields, ch: string): (Fields, Option<nat>) {
    (f.(subs := f.subs - {ch}), f.conn)
  }

  function CloseSection(f: Fields): (Fields, Option<nat>) {
    (f.(closed := true, conn := None), f.conn)
  }

  /** connect stores the new connection and copies the subscriptions; it does not
      look at the close flag. */
  function InstallSection(f: Fields, c: nat): (Fields, map<string, string>) {
    (f.(conn := Some(c), attempts := 0), f.subs)
  }

  /** The reader's exit: it forgets its own connection and reads the flag. */
  function DropSection(f: Fields, c: nat): (Fields, bool) {
    (if f.conn == Some(c) then f.(conn := None) else f, f.closed)
  }

  /** The delay before the next dial, none after a close. At the cap the count of
      attempts starts over. */
  function RescheduleSection(f: Fields, base: nat, cap: nat): (Fields, Option<nat>) {
    if f.closed then (f, None)
    else
      var attempt := f.attempts + 1;
      var delay := RawDelay(base, attempt);
      if delay >= cap then (f.(attempts := 0), Some(cap)) else (f.(attempts := attempt), Some(delay))
  }

  class PubSubWS {
    const reconnectInterval: nat
    const maxReconnectInterval: nat
    var conn: Option<nat>
    var subscriptions: map<string, string>
    var reconnectAttempts: nat
    var intentionalClose: bool

    constructor (reconnectInterval: nat, maxReconnectInterval: nat)
      ensures this.reconnectInterval == reconnectInterval && this.maxReconnectInterval == maxReconnectInterval
      ensures View() == Fields(None, map[], 0, false)
    {
      this.reconnectInterval := reconnectInterval;
      this.maxReconnectInterval := maxReconnectInterval;
      conn := None;
      subscriptions := map[];
      reconnectAttempts := 0;
      intentionalClose := false;
    }

    function View(): Fields
      reads this
    {
      Fields(conn, subscriptions, reconnectAttempts, intentionalClose)
    }

    method Subscribe(channel: string, consumer: string) returns (captured: Option<nat>)
      modifies this
      ensures (View(), captured) == SubscribeSection(old(View()), channel, consumer)
    {
      subscriptions := subscriptions[channel := consumer];
      captured := conn;
    }

    method Unsubscribe(channel: string) returns (captured: Option<nat>)
      modifies this
      ensures (View(), captured) == UnsubscribeSection(old(View()), channel)
    {
      subscriptions := subscriptions - {channel};
      captured := conn;
    }

    method Close() returns (captured: Option<nat>)
      modifies this
      ensures (View(), captured) == CloseSection(old(View()))
    {
      intentionalClose := true;
      captured := conn;
      conn := None;
    }

    method Install(c: nat) returns (subs: map<string, string>)
      modifies this
      ensures (View(), subs) == InstallSection(old(View()), c)
    {
      conn := Some(c);
      reconnectAttempts := 0;
      subs := subscriptions;
    }

    method Drop(c: nat) returns (intentional: bool)
      modifies this
      ensures (View(), intentional) == DropSection(old(View()), c)
    {
      if conn == Some(c) {
        conn := None;
      }
      intentional := intentionalClose;
    }

    method ScheduleReconnect() returns (delay: Option<nat>)
      modifies this
      ensures (View(), delay) == RescheduleSection(old(View()), reconnectInterval, maxReconnectInterval)
    {
      if intentionalClose {
        return None;
      }
      reconnectAttempts := reconnectAttempts + 1;
      var attempt := reconnectAttempts;
      var d := RawDelay(reconnectInterval, attempt);
      if d >= maxReconnectInterval {
        d := maxReconnectInterval;
        reconnectAttempts := 0;
      }
      delay := Some(d);
    }
  }
}
