/**
 The heartbeat (src/websocket.c:559-564 and 1553-1601): a ping when the interval has passed, a timeout
 when the last ping has gone unanswered. Times are 64-bit nanosecond counts.
 */
module Heartbeats {
  import opened Bytes

  /** Both settings in milliseconds, as configured. */
  datatype Config = Config(pingIntervalMs: nat, pongTimeoutMs: nat)
  {
    function Interval(): nat { pingIntervalMs * 1_000_000 }
    function Timeout(): nat { pongTimeoutMs * 1_000_000 }
  }

  /** The two remembered times; 0 means never. */
  datatype Beat = Beat(lastPing: nat, lastPong: nat)

  /** A heartbeat check, with whether a ping could be queued, or the arrival of a pong. */
  datatype Event = Check(now: nat, written: bool) | Pong(now: nat)

  /** Unsigned subtraction. */
  function Elapsed(now: nat, since: nat): int { if now >= since then now - since else now + TWO_64 - since }

  predicate Due(c: Config, b: Beat, now: nat) {
    b.lastPing == 0 || Elapsed(now, b.lastPing) >= c.Interval()
  }

  predicate Pings(c: Config, b: Beat, e: Event) { e.Check? && Due(c, b, e.now) && e.written }

  function AfterPing(c: Config, b: Beat, e: Event): Beat {
    if Pings(c, b, e) then b.(lastPing := e.now) else b
  }

  predicate Fires(c: Config, b: Beat, e: Event) {
    var b' := AfterPing(c, b, e);
    e.Check? && b'.lastPing > 0 && b'.lastPong < b'.lastPing && Elapsed(e.now, b'.lastPing) >= c.Timeout()
  }

  function Next(c: Config, b: Beat, e: Event): Beat {
    if e.Pong? then b.(lastPong := e.now)
    else if Fires(c, b, e) then AfterPing(c, b, e).(lastPing := 0)
    else AfterPing(c, b, e)
  }

  // ---- Runs --------------------------------------------------------------------------------------------

  /** A clock that has started and does not run backwards. */
  ghost predicate Clocked(es: seq<Event>) {
    && (forall i | 0 <= i < |es| :: 0 < es[i].now)
    && (forall i, j | 0 <= i <= j < |es| :: es[i].now <= es[j].now)
  }

  function StateAt(c: Config, es: seq<Event>, k: nat): Beat
    requires k <= |es|
  {
    if k == 0 then Beat(0, 0) else Next(c, StateAt(c, es, k - 1), es[k - 1])
  }

  predicate PingsAt(c: Config, es: seq<Event>, k: nat)
    requires k < |es|
  {
    Pings(c, StateAt(c, es, k), es[k])
  }

  predicate FiresAt(c: Config, es: seq<Event>, k: nat)
    requires k < |es|
  {
    Fires(c, StateAt(c, es, k), es[k])
  }

  /** The ping that event k is waiting on: sent at j, not replaced since, and not yet given up on. */
  ghost predicate WaitsOn(c: Config, es: seq<Event>, j: nat, k: nat) {
    && j < k <= |es|
    && PingsAt(c, es, j)
    && (forall i | j < i < k :: !PingsAt(c, es, i))
    && (forall i | j <= i < k :: !FiresAt(c, es, i))
  }

  /** Which ping is waited on before event k; -1 if none. */
  ghost function Awaited(c: Config, es: seq<Event>, k: nat): int
    requires k <= |es|
  {
    if k == 0 || FiresAt(c, es, k - 1) then -1
    else if PingsAt(c, es, k - 1) then k - 1
    else Awaited(c, es, k - 1)
  }

  lemma NextLastPing(c: Config, b: Beat, e: Event)
    ensures Next(c, b, e).lastPing == if Fires(c, b, e) then 0 else if Pings(c, b, e) then e.now else b.lastPing
  {}

  lemma {:induction false} AwaitedIsLastPing(c: Config, es: seq<Event>, k: nat)
    requires Clocked(es) && k <= |es|
    ensures var j := Awaited(c, es, k);
      && -1 <= j < k
      && StateAt(c, es, k).lastPing == (if j == -1 then 0 else es[j].now)
      && (j >= 0 ==> WaitsOn(c, es, j, k))
  {
    if k == 0 {
    } else {
      hide Next, Fires, Pings;
      AwaitedIsLastPing(c, es, k - 1);
      NextLastPing(c, StateAt(c, es, k - 1), es[k - 1]);
    }
  }

  /** At most one ping is waited on at a time. */
  lemma {:induction false} AwaitedIsUnique(c: Config, es: seq<Event>, i: nat, k: nat)
    requires WaitsOn(c, es, i, k)
    ensures Awaited(c, es, k) == i
    decreases k
  {
    hide PingsAt, FiresAt;
    if i == k - 1 {
    } else {
      AwaitedIsUnique(c, es, i, k - 1);
    }
  }

  lemma {:induction false} LastPongIsLatest(c: Config, es: seq<Event>, k: nat)
    requires Clocked(es) && k <= |es|
    ensures var p := StateAt(c, es, k).lastPong;
      && (forall i | 0 <= i < k && es[i].Pong? :: es[i].now <= p)
      && (p == 0 || exists i | 0 <= i < k :: es[i].Pong? && es[i].now == p)
  {
    if k == 0 {
    } else {
      LastPongIsLatest(c, es, k - 1);
    }
  }

  /** The ping sent at j has had no answer before event k: no pong at or after its time. */
  ghost predicate Unanswered(es: seq<Event>, j: nat, k: nat) {
    j < |es| && k <= |es| && forall i | 0 <= i < k && es[i].Pong? :: es[i].now < es[j].now
  }

  lemma {:induction false} AnsweredOrNot(c: Config, es: seq<Event>, j: nat, k: nat)
    requires Clocked(es) && j < |es| && k <= |es|
    ensures StateAt(c, es, k).lastPong < es[j].now <==> Unanswered(es, j, k)
  {
    LastPongIsLatest(c, es, k);
  }

  /**
   Event k raises a timeout exactly when it is a check, and the ping waited on (which may be sent by this
   very check) is unanswered and at least the timeout old.
   */
  lemma TimeoutExactly(c: Config, es: seq<Event>, k: nat)
    requires Clocked(es) && k < |es|
    ensures FiresAt(c, es, k) <==>
      && es[k].Check?
      && exists j | 0 <= j <= k ::
           && (if PingsAt(c, es, k) then j == k else WaitsOn(c, es, j, k))
           && Unanswered(es, j, k)
           && es[k].now - es[j].now >= c.Timeout()
  {
    AwaitedIsLastPing(c, es, k);
    var j := if PingsAt(c, es, k) then k else Awaited(c, es, k);
    if j >= 0 { AnsweredOrNot(c, es, j, k); }
    forall i | 0 <= i < k && WaitsOn(c, es, i, k) ensures i == Awaited(c, es, k) { AwaitedIsUnique(c, es, i, k); }
  }

  /**
   Event k sends a ping exactly when it is a check whose ping can be written, and no ping is waited on or the one
   waited on is at least the interval old; whether it was answered plays no part.
   */
  lemma PingsExactly(c: Config, es: seq<Event>, k: nat)
    requires Clocked(es) && k < |es|
    ensures PingsAt(c, es, k) <==>
      && es[k].Check? && es[k].written
      && forall j: nat | WaitsOn(c, es, j, k) :: es[k].now - es[j].now >= c.pingIntervalMs * 1_000_000
  {
    AwaitedIsLastPing(c, es, k);
    var j := Awaited(c, es, k);
    forall i: nat | WaitsOn(c, es, i, k) ensures i == j { AwaitedIsUnique(c, es, i, k); }
  }

  /** The settings are in milliseconds, the clock counts nanoseconds, and differences are unsigned 64-bit ones. */
  lemma UnitsOf(c: Config, now: nat, since: nat)
    requires now < TWO_64 && since < TWO_64
    ensures c.Interval() == c.pingIntervalMs * 1_000_000 && c.Timeout() == c.pongTimeoutMs * 1_000_000
    ensures Elapsed(now, since) == (now - since) % TWO_64
  {
    if now >= since {
      Bytes.DivModUnique(now - since, TWO_64, 0, now - since);
    } else {
      Bytes.DivModUnique(now - since, TWO_64, -1, now + TWO_64 - since);
    }
  }

  /** A ping times out at most once: between two timeouts a new ping is sent. */
  lemma OncePerPing(c: Config, es: seq<Event>, k: nat, m: nat) returns (j: nat)
    requires Clocked(es) && k < m < |es| && FiresAt(c, es, k) && FiresAt(c, es, m)
    ensures k < j <= m && PingsAt(c, es, j)
  {
    TimeoutExactly(c, es, m);
    j :| 0 <= j <= m && (if PingsAt(c, es, m) then j == m else WaitsOn(c, es, j, m));
  }

  ghost predicate AllWritten(es: seq<Event>) { forall i | 0 <= i < |es| && es[i].Check? :: es[i].written }

  /** If pings are sent at least as often as the timeout, each new ping restarts the wait and no timeout ever fires. */
  lemma {:induction false} NeverFires(c: Config, es: seq<Event>, k: nat)
    requires Clocked(es) && AllWritten(es) && k < |es|
    requires 0 < c.pongTimeoutMs && c.pingIntervalMs <= c.pongTimeoutMs
    ensures !FiresAt(c, es, k)
  {
    AwaitedIsLastPing(c, es, k);
  }

  /** A run whose pings can all be written and that nevertheless times out, for a timeout below the interval. */
  lemma FiresEventually(c: Config) returns (es: seq<Event>, k: nat)
    requires c.pongTimeoutMs == 0 || c.pongTimeoutMs < c.pingIntervalMs
    ensures Clocked(es) && AllWritten(es) && k < |es| && FiresAt(c, es, k)
  {
    if c.pongTimeoutMs == 0 {
      es, k := [Check(1, true)], 0;
    } else {
      es, k := [Check(1, true), Check(1 + c.Timeout(), true)], 1;
      assert StateAt(c, es, 0) == Beat(0, 0);
      assert StateAt(c, es, 1) == Beat(1, 0);
    }
  }

  /** With writable pings, a configuration can ever time out exactly if the timeout is zero or below the interval. */
  lemma CanTimeOutIff(c: Config)
    ensures (exists es, k: nat | k < |es| :: Clocked(es) && AllWritten(es) && FiresAt(c, es, k))
       <==> c.pongTimeoutMs == 0 || c.pongTimeoutMs < c.pingIntervalMs
  {
    if c.pongTimeoutMs == 0 || c.pongTimeoutMs < c.pingIntervalMs {
      var es, k := FiresEventually(c);
    } else {
      forall es, k: nat | k < |es| && Clocked(es) && AllWritten(es) ensures !FiresAt(c, es, k) {
        NeverFires(c, es, k);
      }
    }
  }

  // ---- The heartbeat in place ---------------------------------------------------------------------------

  class Heartbeat {
    var config: Config
    var enabled: bool
    var lastPingSentNs: nat
    var lastPongReceivedNs: nat

    function View(): Beat
      reads this
    {
      Beat(lastPingSentNs, lastPongReceivedNs)
    }

    constructor (c: Config, enable: bool)
      ensures View() == Beat(0, 0) && config == c && enabled == enable
    {
      config, enabled, lastPingSentNs, lastPongReceivedNs := c, enable, 0, 0;
    }

    method SetConfig(c: Config, enable: bool)
      modifies this
      ensures View() == Beat(0, 0) && config == c && enabled == enable
    {
      config, enabled, lastPingSentNs, lastPongReceivedNs := c, enable, 0, 0;
    }

    method PongReceived(now: nat)
      modifies this`lastPongReceivedNs
      ensures View() == Next(config, old(View()), Pong(now))
    {
      lastPongReceivedNs := now;
    }

    /** `written` says whether both bytes of a ping can be queued now. */
    method CheckHeartbeat(connected: bool, now: nat, written: bool) returns (pinged: bool, timedOut: bool)
      modifies this`lastPingSentNs
      ensures !enabled || !connected ==> View() == old(View()) && !pinged && !timedOut
      ensures enabled && connected ==>
        && View() == Next(config, old(View()), Check(now, written))
        && pinged == Pings(config, old(View()), Check(now, written))
        && timedOut == Fires(config, old(View()), Check(now, written))
    {
      pinged, timedOut := false, false;
      if !enabled || !connected {
        return;
      }
      if lastPingSentNs == 0 || Elapsed(now, lastPingSentNs) >= config.Interval() {
        if written {
          lastPingSentNs := now;
          pinged := true;
        }
      }
      if lastPingSentNs > 0 && lastPongReceivedNs < lastPingSentNs {
        if Elapsed(now, lastPingSentNs) >= config.Timeout() {
          timedOut := true;
          lastPingSentNs := 0;
        }
      }
    }
  }
}
