/**
 Reconnection backoff (src/websocket.c:1090-1095 and 1510-1549). The floating-point product is an exact
 real here; attempts are a 32-bit counter.
 */
module Backoffs {
  import Bytes

  const U32: nat := 0x1_0000_0000

  type u32 = n: int | 0 <= n < U32

  datatype Config = Config(
    autoReconnect: bool, maxRetries: u32, initialMs: u32, maxMs: u32, multiplier: real, resetOnSuccess: bool)

  datatype State = State(attempts: u32, nextMs: u32, reconnecting: bool)

  function Pow(m: real, n: nat): real { if n == 0 then 1.0 else Pow(m, n - 1) * m }

  /** The uncapped delay. */
  function Delay(c: Config, attempts: nat): real { c.initialMs as real * Pow(c.multiplier, attempts) }

  /** The delay as returned: whole milliseconds, capped, except that before any attempt there is no cap. */
  function Backoff(c: Config, attempts: nat): (ms: u32)
    requires c.multiplier >= 0.0
  {
    if attempts == 0 then c.initialMs else
      PowNonNegative(c.multiplier, attempts);
      assert Delay(c, attempts) >= 0.0;
      var cap := c.maxMs as real;
      if Delay(c, attempts) > cap then c.maxMs else
        FloorBounds(Delay(c, attempts), c.maxMs);
        Delay(c, attempts).Floor
  }

  lemma FloorBounds(x: real, n: int)
    requires 0.0 <= x <= n as real
    ensures 0 <= x.Floor <= n
  {}

  lemma FloorMonotone(x: real, y: real)
    requires x <= y
    ensures x.Floor <= y.Floor
  {}

  lemma {:induction false} PowNonNegative(m: real, n: nat)
    requires m >= 0.0
    ensures Pow(m, n) >= 0.0
  {
    if n == 0 {
    } else {
      PowNonNegative(m, n - 1);
    }
  }

  lemma ScaleMonotone(a: real, x: real, y: real)
    requires a >= 0.0 && x <= y
    ensures a * x <= a * y
  {
    assert a * (y - x) >= 0.0;
  }

  lemma {:induction false} PowMonotone(m: real, a: nat, b: nat)
    requires m >= 1.0 && a <= b
    ensures 1.0 <= Pow(m, a) <= Pow(m, b)
  {
    if a < b {
      PowMonotone(m, a, b - 1);
      ScaleMonotone(Pow(m, b - 1), 1.0, m);
    } else if a > 0 {
      PowMonotone(m, a - 1, a - 1);
      ScaleMonotone(Pow(m, a - 1), 1.0, m);
    }
  }

  lemma BernoulliStep(p: real, k: real, d: real)
    requires p >= 1.0 && d >= 0.0 && p >= 1.0 + k * d
    ensures p * (1.0 + d) >= 1.0 + (k + 1.0) * d
  {
    ScaleMonotone(d, 1.0, p);
    assert p * (1.0 + d) == p + d * p;
    assert (k + 1.0) * d == k * d + d;
  }

  /** Geometric growth beats linear growth. */
  lemma {:induction false} Bernoulli(m: real, n: nat)
    requires m >= 1.0
    ensures Pow(m, n) >= 1.0 + n as real * (m - 1.0)
  {
    if n == 0 {
    } else {
      Bernoulli(m, n - 1);
      PowMonotone(m, n - 1, n - 1);
      BernoulliStep(Pow(m, n - 1), (n - 1) as real, m - 1.0);
      assert Pow(m, n) == Pow(m, n - 1) * (1.0 + (m - 1.0));
      assert n as real == (n - 1) as real + 1.0;
    }
  }

  // ---- The delays -------------------------------------------------------------------------------------

  /** From the first attempt on, delays never shrink and never exceed the cap. */
  lemma BackoffMonotone(c: Config, a: nat, b: nat)
    requires c.multiplier >= 1.0 && 1 <= a <= b
    ensures Backoff(c, a) <= Backoff(c, b) <= c.maxMs
  {
    PowMonotone(c.multiplier, a, b);
    ScaleMonotone(c.initialMs as real, Pow(c.multiplier, a), Pow(c.multiplier, b));
    PowNonNegative(c.multiplier, b);
    assert Delay(c, b) >= 0.0;
    FloorMonotone(Delay(c, a), Delay(c, b));
    if Delay(c, a) <= c.maxMs as real { FloorBounds(Delay(c, a), c.maxMs); }
  }

  function IntPow(m: nat, n: nat): nat { if n == 0 then 1 else m * IntPow(m, n - 1) }

  lemma {:induction false} PowOfInt(m: nat, n: nat)
    ensures Pow(m as real, n) == IntPow(m, n) as real
  {
    if n == 0 {
    } else {
      PowOfInt(m, n - 1);
      assert IntPow(m, n) as real == m as real * IntPow(m, n - 1) as real;
    }
  }

  /** With a whole multiplier the delay from the first attempt on is initial times multiplier to the n, or the cap. */
  lemma WholeDelays(c: Config, m: nat, n: nat)
    requires c.multiplier == m as real && n > 0
    ensures var exact := c.initialMs * IntPow(m, n);
      Backoff(c, n) == if exact <= c.maxMs then exact else c.maxMs
  {
    PowOfInt(m, n);
    var exact := c.initialMs * IntPow(m, n);
    assert Delay(c, n) == c.initialMs as real * IntPow(m, n) as real == exact as real;
    hide Delay, Pow;
  }

  /** In general it is the exact product rounded down, or the cap if the product exceeds it. */
  lemma DelayRoundsDown(c: Config, n: nat)
    requires c.multiplier >= 0.0 && n > 0
    ensures var exact, ms := c.initialMs as real * Pow(c.multiplier, n), Backoff(c, n) as real;
      if exact > c.maxMs as real then ms == c.maxMs as real else ms <= exact < ms + 1.0
  {
    PowNonNegative(c.multiplier, n);
  }

  /** The delays of the default configuration: 100 ms, doubling up to 30 s. */
  lemma DefaultDelays(c: Config)
    requires c.initialMs == 100 && c.maxMs == 30_000 && c.multiplier == 2.0
    ensures Backoff(c, 0) == 100 && Backoff(c, 1) == 200 && Backoff(c, 2) == 400 && Backoff(c, 8) == 25_600
    ensures forall n: nat | n >= 9 :: Backoff(c, n) == 30_000
  {
    assert IntPow(2, 1) == 2 && IntPow(2, 2) == 4 && IntPow(2, 4) == 16 && IntPow(2, 6) == 64;
    assert IntPow(2, 8) == 256 && IntPow(2, 9) == 512;
    hide Backoff, IntPow;
    NoAttempt(c);
    WholeDelays(c, 2, 1);
    WholeDelays(c, 2, 2);
    WholeDelays(c, 2, 8);
    WholeDelays(c, 2, 9);
    forall n: nat | n >= 9 ensures Backoff(c, n) == 30_000 { BackoffMonotone(c, 9, n); }
  }

  /** The delay before any attempt is uncapped: it is at most the next one exactly if it respects the cap. */
  lemma FirstDelay(c: Config)
    requires c.multiplier >= 1.0
    ensures Backoff(c, 0) <= Backoff(c, 1) <==> c.initialMs <= c.maxMs
  {
    assert Pow(c.multiplier, 1) == Pow(c.multiplier, 0) * c.multiplier == c.multiplier;
    DelayAtLeastStart(c);
    FloorMonotone(c.initialMs as real, Delay(c, 1));
  }

  /** With a multiplier above one and a positive start, from some attempt on the delay is exactly the cap. */
  lemma ReachesCap(c: Config) returns (n: nat)
    requires c.multiplier > 1.0 && c.initialMs > 0
    ensures forall k: nat | k >= n :: Backoff(c, k) == c.maxMs
  {
    var d := c.multiplier - 1.0;
    n := (c.maxMs as real / d).Floor + 1;
    forall k: nat | k >= n ensures Backoff(c, k) == c.maxMs {
      PastCap(c, n, k);
    }
  }

  lemma PastCap(c: Config, n: nat, k: nat)
    requires c.multiplier > 1.0 && c.initialMs > 0 && 1 <= n <= k
    requires n as real > c.maxMs as real / (c.multiplier - 1.0)
    ensures Backoff(c, k) == c.maxMs
  {
    var p := Pow(c.multiplier, k);
    Bernoulli(c.multiplier, k);
    Exceeds(k as real, c.maxMs as real, c.multiplier - 1.0);
    assert p > c.maxMs as real;
    DelayAbove(c, k, p);
  }

  lemma Exceeds(x: real, cap: real, d: real)
    requires d > 0.0 && x > cap / d
    ensures x * d > cap
  {
    var q := cap / d;
    assert q * d == cap;
    assert (x - q) * d > 0.0;
    assert (x - q) * d == x * d - q * d;
  }

  lemma GrowsBy(x: real, m: real, y: real)
    requires m >= 1.0 && x >= 0.0 && (y == m * x || y == x * m)
    ensures y >= x
  {
    assert (m - 1.0) * x >= 0.0;
  }

  lemma DelayAbove(c: Config, k: nat, p: real)
    requires c.initialMs > 0 && p == Pow(c.multiplier, k) && p >= 0.0
    ensures Delay(c, k) >= p
  {
    GrowsBy(p, c.initialMs as real, Delay(c, k));
  }

  lemma DelayAtLeastStart(c: Config)
    requires c.multiplier >= 1.0
    ensures Delay(c, 1) >= c.initialMs as real
  {
    assert Pow(c.multiplier, 1) == 1.0 * c.multiplier;
    GrowsBy(c.initialMs as real, c.multiplier, Delay(c, 1));
  }

  // ---- Repeated triggers --------------------------------------------------------------------------------

  function Triggered(c: Config, s: State): State
    requires c.multiplier >= 0.0
  {
    if !c.autoReconnect || (c.maxRetries > 0 && s.attempts >= c.maxRetries) then s
    else
      var attempts := (s.attempts + 1) % U32;
      State(attempts, Backoff(c, attempts), true)
  }

  /** The reset after a successful handshake. */
  function Succeeded(c: Config, s: State): State {
    if c.resetOnSuccess then State(0, c.initialMs, false) else s
  }

  datatype Attempt = Lost | Success

  /** A series of lost connections, each triggering an attempt, and successful handshakes. */
  function Attempted(c: Config, es: seq<Attempt>): State
    requires c.multiplier >= 0.0
  {
    if es == [] then State(0, c.initialMs, false) else
      var s := Attempted(c, es[..|es| - 1]);
      if es[|es| - 1].Lost? then Triggered(c, s) else Succeeded(c, s)
  }

  /** The losses that count: those after the last success if successes reset the state, otherwise all. */
  function Counted(c: Config, es: seq<Attempt>): nat {
    if es == [] then 0 else
      var n := Counted(c, es[..|es| - 1]);
      if es[|es| - 1].Lost? then n + 1 else if c.resetOnSuccess then 0 else n
  }

  /** Whatever the series, the state is that of a fresh series of as many losses as count. */
  lemma {:induction false} SuccessStartsAfresh(c: Config, es: seq<Attempt>)
    requires c.multiplier >= 0.0
    ensures Attempted(c, es) == TriggeredTimes(c, Counted(c, es))
  {
    hide Triggered;
    if es == [] {
    } else {
      SuccessStartsAfresh(c, es[..|es| - 1]);
    }
  }

  function TriggeredTimes(c: Config, n: nat): State
    requires c.multiplier >= 0.0
  {
    if n == 0 then State(0, c.initialMs, false) else Triggered(c, TriggeredTimes(c, n - 1))
  }

  lemma NoAttempt(c: Config)
    requires c.multiplier >= 0.0
    ensures Backoff(c, 0) == c.initialMs
  {}

  /** n triggers count to n, stop at a non-zero retry limit, and otherwise wrap at 32 bits. */
  lemma {:induction false} TriggerCount(c: Config, n: nat)
    requires c.multiplier >= 0.0 && c.autoReconnect
    ensures var s := TriggeredTimes(c, n);
      && s.attempts == (if c.maxRetries > 0 then (if n < c.maxRetries then n else c.maxRetries) else n % U32)
      && s.nextMs == Backoff(c, s.attempts)
      && (c.maxRetries > 0 ==> s.attempts <= c.maxRetries)
      && (s.reconnecting <==> n > 0)
  {
    hide Backoff, Triggered;
    if n == 0 {
      NoAttempt(c);
    } else {
      TriggerCount(c, n - 1);
      TriggerStep(c, TriggeredTimes(c, n - 1));
      Bytes.ModAdvance(n - 1, 1, U32);
    }
  }

  /** Without automatic reconnection a trigger does nothing. */
  lemma {:induction false} TriggersIgnored(c: Config, n: nat)
    requires c.multiplier >= 0.0 && !c.autoReconnect
    ensures TriggeredTimes(c, n) == State(0, c.initialMs, false)
  {
    if n == 0 {
    } else {
      TriggersIgnored(c, n - 1);
    }
  }

  lemma TriggerStep(c: Config, s: State)
    requires c.multiplier >= 0.0 && c.autoReconnect && s.nextMs == Backoff(c, s.attempts)
    requires c.maxRetries > 0 ==> s.attempts <= c.maxRetries
    requires s.reconnecting || s.attempts == 0
    ensures var s' := Triggered(c, s);
      && s'.reconnecting
      && s'.nextMs == Backoff(c, s'.attempts)
      && (c.maxRetries > 0 ==> s'.attempts == if s.attempts < c.maxRetries then s.attempts + 1 else s.attempts)
      && (c.maxRetries == 0 ==> s'.attempts == (s.attempts + 1) % U32)
  {
    hide Backoff;
    if s.attempts + 1 < U32 { Bytes.ModOnce(s.attempts + 1, U32); }
  }

  /** Over repeated triggers the announced delay never shrinks, until an unlimited count wraps after 2^32 triggers. */
  lemma DelaysNeverShrink(c: Config, a: nat, b: nat)
    requires c.multiplier >= 1.0 && c.autoReconnect && 1 <= a <= b
    requires c.maxRetries > 0 || b < U32
    ensures TriggeredTimes(c, a).nextMs <= TriggeredTimes(c, b).nextMs <= c.maxMs
  {
    hide Backoff, TriggeredTimes;
    TriggerCount(c, a);
    TriggerCount(c, b);
    if c.maxRetries == 0 {
      Bytes.ModOnce(a, U32);
      Bytes.ModOnce(b, U32);
    }
    BackoffMonotone(c, TriggeredTimes(c, a).attempts, TriggeredTimes(c, b).attempts);
  }

  // ---- When the cap is reached -----------------------------------------------------------------------------

  /** The highest attempt number a series of triggers reaches. */
  function Limit(c: Config): (n: nat)
    ensures 1 <= n < U32
  {
    if c.maxRetries > 0 then c.maxRetries else U32 - 1
  }

  /** Triggers ever announce exactly the cap if and only if the delay at the highest attempt number is the cap. */
  lemma CapReachedIff(c: Config)
    requires c.multiplier >= 1.0 && c.autoReconnect
    ensures (exists n: nat | 1 <= n <= Limit(c) :: TriggeredTimes(c, n).nextMs == c.maxMs)
       <==> Backoff(c, Limit(c)) == c.maxMs
  {
    hide Backoff, TriggeredTimes, Limit;
    forall n: nat | 1 <= n <= Limit(c)
      ensures TriggeredTimes(c, n).nextMs == Backoff(c, n) <= Backoff(c, Limit(c)) <= c.maxMs
    {
      AnnouncedWithin(c, n);
    }
    assert TriggeredTimes(c, Limit(c)).nextMs == Backoff(c, Limit(c));
  }

  lemma AnnouncedWithin(c: Config, n: nat)
    requires c.multiplier >= 1.0 && c.autoReconnect && 1 <= n <= Limit(c)
    ensures TriggeredTimes(c, n).nextMs == Backoff(c, n) <= Backoff(c, Limit(c)) <= c.maxMs
  {
    hide Backoff, TriggeredTimes;
    TriggerCount(c, n);
    if c.maxRetries == 0 { Bytes.ModOnce(n, U32); }
    BackoffMonotone(c, n, Limit(c));
  }

  /** A growth that passes the cap within the attempts that can be counted is enough. */
  lemma CapReachedByGrowth(c: Config)
    requires c.multiplier > 1.0 && c.initialMs > 0 && c.autoReconnect
    requires Limit(c) as real > c.maxMs as real / (c.multiplier - 1.0)
    ensures exists n: nat | 1 <= n <= Limit(c) :: TriggeredTimes(c, n).nextMs == c.maxMs
  {
    hide Backoff, TriggeredTimes;
    PastCap(c, Limit(c), Limit(c));
    CapReachedIff(c);
  }

  /** Growth by e per step stays below 1 / (1 - n * e). */
  lemma {:induction false} SlowGrowth(e: real, n: nat)
    requires e >= 0.0 && n as real * e <= 1.0
    ensures Pow(1.0 + e, n) * (1.0 - n as real * e) <= 1.0
  {
    if n == 0 {
    } else {
      var k := (n - 1) as real;
      assert n as real * e == k * e + e;
      SlowGrowth(e, n - 1);
      PowNonNegative(1.0 + e, n - 1);
      SlowStep(Pow(1.0 + e, n - 1), k * e, e);
    }
  }

  lemma SlowStep(p: real, x: real, e: real)
    requires p >= 0.0 && e >= 0.0 && x >= 0.0 && p * (1.0 - x) <= 1.0
    ensures p * (1.0 + e) * (1.0 - (x + e)) <= 1.0
  {
    var shrink := e * x + e * e;
    assert (1.0 + e) * (1.0 - (x + e)) == (1.0 - x) - shrink;
    assert p * (1.0 + e) * (1.0 - (x + e)) == p * ((1.0 - x) - shrink) == p * (1.0 - x) - p * shrink;
    assert e * x >= 0.0 && e * e >= 0.0;
    assert p * shrink >= 0.0;
  }

  /** A multiplier above one that the counter is too short for: after 2^32 - 1 attempts the delay has not doubled. */
  lemma CapNeverReached(c: Config)
    requires c.autoReconnect && c.maxRetries == 0
    requires c.multiplier == 1.0 + 1.0 / 1_099_511_627_776.0
    requires c.initialMs == 1 && c.maxMs > 1
    ensures c.multiplier > 1.0 && c.initialMs > 0
    ensures forall n: nat | 1 <= n <= Limit(c) :: TriggeredTimes(c, n).nextMs != c.maxMs
  {
    var n, e := Limit(c), 1.0 / 1_099_511_627_776.0;
    assert n as real * e <= 0.5;
    SlowGrowth(e, n);
    var p := Pow(c.multiplier, n);
    Halved(p, 1.0 - n as real * e);
    assert Delay(c, n) == p;
    hide Backoff, TriggeredTimes;
    BelowTwo(c, n);
    CapReachedIff(c);
  }

  lemma Halved(p: real, r: real)
    requires p * r <= 1.0 && r > 0.5
    ensures p < 2.0
  {
    assert p >= 2.0 ==> p * r >= 2.0 * r;
  }

  lemma BelowTwo(c: Config, n: nat)
    requires c.multiplier >= 0.0 && n > 0 && Delay(c, n) < 2.0 && c.maxMs > 1
    ensures Backoff(c, n) < c.maxMs
  {}

  /** A retry limit can also stop the growth: one attempt that doubles the delay. */
  lemma RetryLimitStopsGrowth(c: Config)
    requires c.autoReconnect && c.maxRetries == 1 && c.multiplier == 2.0 && c.maxMs > 2 * c.initialMs
    ensures forall n: nat | 1 <= n <= Limit(c) :: TriggeredTimes(c, n).nextMs != c.maxMs
  {
    assert Pow(2.0, 1) == 1.0 * 2.0;
    assert Delay(c, 1) == (2 * c.initialMs) as real;
    assert Backoff(c, 1) == 2 * c.initialMs;
    CapReachedIff(c);
  }

  // ---- In place -----------------------------------------------------------------------------------------

  class Reconnector {
    const config: Config
    var attempts: u32
    var nextBackoffMs: u32
    var isReconnecting: bool

    ghost function View(): State
      reads this
    {
      State(attempts, nextBackoffMs, isReconnecting)
    }

    constructor (c: Config)
      requires c.multiplier >= 0.0
      ensures config == c && View() == TriggeredTimes(c, 0)
    {
      config, attempts, nextBackoffMs, isReconnecting := c, 0, c.initialMs, false;
    }

    /** The multiplication loop. */
    method CalculateBackoff() returns (ms: u32)
      requires config.multiplier >= 0.0
      ensures ms == Backoff(config, attempts)
    {
      if attempts == 0 {
        return config.initialMs;
      }
      var backoff := config.initialMs as real;
      var i := 0;
      while i < attempts
        invariant 0 <= i <= attempts
        invariant backoff == Delay(config, i)
      {
        backoff := backoff * config.multiplier;
        i := i + 1;
      }
      if backoff > config.maxMs as real {
        backoff := config.maxMs as real;
      }
      PowNonNegative(config.multiplier, attempts);
      ScaleMonotone(config.initialMs as real, 0.0, Pow(config.multiplier, attempts));
      FloorBounds(backoff, config.maxMs);
      ms := backoff.Floor;
    }

    method Trigger()
      requires config.multiplier >= 0.0
      modifies this
      ensures View() == Triggered(config, old(View()))
    {
      if !config.autoReconnect {
        return;
      }
      if config.maxRetries > 0 && attempts >= config.maxRetries {
        return;
      }
      isReconnecting := true;
      attempts := (attempts + 1) % U32;
      nextBackoffMs := CalculateBackoff();
    }

    method Connected()
      modifies this
      ensures View() == Succeeded(config, old(View()))
    {
      if config.resetOnSuccess {
        attempts, isReconnecting, nextBackoffMs := 0, false, config.initialMs;
      }
    }
  }
}
