/**
 The estimate of a packet's arrival in clock ticks (src/io_kqueue.c:247-257 and 279-289). One tick is
 numer/denom nanoseconds; products are 64-bit.
 */
module NicClock {
  import opened Bytes

  function Mul64(a: nat, b: nat): nat { a * b % TWO_64 }

  function TicksToNs(ticks: nat, numer: nat, denom: nat): nat
    requires 0 < denom
  {
    Mul64(ticks, numer) / denom
  }

  function EstimateTicks(nowTicks: nat, nicNs: nat, numer: nat, denom: nat): nat
    requires 0 < numer && 0 < denom
  {
    var nowNs := TicksToNs(nowTicks, numer, denom);
    if nicNs <= nowNs && nowNs > 0 then
      var diffNs := nowNs - nicNs;
      var diffTicks := Mul64(diffNs, denom) / numer;
      if nowTicks > diffTicks then nowTicks - diffTicks else 0
    else
      nowTicks
  }

  lemma DivBounds(x: nat, d: nat)
    requires 0 < d
    ensures x / d * d <= x < x / d * d + d
  {}

  lemma DivCompare(x: nat, d: nat, lo: nat)
    requires 0 < d && lo * d <= x
    ensures lo <= x / d
  {
    DivBounds(x, d);
    MultipleIsFar(lo - x / d, d);
    assert (lo - x / d) * d == lo * d - x / d * d;
  }

  /** The estimate never goes below the start of the clock: the difference in ticks is at most the current tick. */
  lemma DiffWithinNow(ticks: nat, nicNs: nat, numer: nat, denom: nat)
    requires 0 < numer && 0 < denom
    requires nicNs <= ticks * numer / denom
    ensures (ticks * numer / denom - nicNs) * denom / numer <= ticks
  {
    var nowNs := ticks * numer / denom;
    DivBounds(ticks * numer, denom);
    var x := (nowNs - nicNs) * denom;
    assert x == nowNs * denom - nicNs * denom;
    assert nicNs * denom >= 0;
    DivBounds(x, numer);
    MultipleIsFar(x / numer - ticks, numer);
    assert (x / numer - ticks) * numer == x / numer * numer - ticks * numer;
  }

  /** Rounding loses less than a nanosecond and a tick. */
  lemma EstimateScaled(ticks: nat, nicNs: nat, numer: nat, denom: nat)
    requires 0 < numer && 0 < denom
    requires nicNs <= ticks * numer / denom
    ensures var diff := (ticks * numer / denom - nicNs) * denom / numer;
      nicNs * denom <= (ticks - diff) * numer < nicNs * denom + denom + numer
  {
    var nowNs := ticks * numer / denom;
    DivBounds(ticks * numer, denom);
    var x := (nowNs - nicNs) * denom;
    assert x == nowNs * denom - nicNs * denom;
    DivBounds(x, numer);
    var diff := x / numer;
    assert (ticks - diff) * numer == ticks * numer - diff * numer;
  }

  /**
   When no product overflows and the packet is not from the future, converting the estimate back gives at
   least the packet's time, and less than one nanosecond and one tick more.
   */
  lemma EstimateIsClose(ticks: nat, nicNs: nat, numer: nat, denom: nat)
    requires 0 < numer && 0 < denom
    requires ticks * numer < TWO_64
    requires nicNs <= TicksToNs(ticks, numer, denom)
    ensures var est := EstimateTicks(ticks, nicNs, numer, denom);
      && est <= ticks
      && nicNs <= TicksToNs(est, numer, denom) == est * numer / denom
      && TicksToNs(est, numer, denom) * denom < (nicNs + 1) * denom + numer
  {
    var nowNs := ticks * numer / denom;
    assert TicksToNs(ticks, numer, denom) == nowNs;
    DivBounds(ticks * numer, denom);
    var diff := (nowNs - nicNs) * denom / numer;
    NoOverflow(nowNs, nicNs, denom);
    DiffWithinNow(ticks, nicNs, numer, denom);
    EstimateScaled(ticks, nicNs, numer, denom);
    var est := EstimateTicks(ticks, nicNs, numer, denom);
    if nowNs > 0 {
      assert est == ticks - diff;
    }
    EstimateBack(ticks, est, nicNs, numer, denom);
  }

  /** A packet from the future counts as arriving now. */
  lemma FuturePacket(ticks: nat, nicNs: nat, numer: nat, denom: nat)
    requires 0 < numer && 0 < denom && ticks * numer < TWO_64 && nicNs > ticks * numer / denom
    ensures EstimateTicks(ticks, nicNs, numer, denom) == ticks
  {}

  lemma NoOverflow(nowNs: nat, nicNs: nat, denom: nat)
    requires nicNs <= nowNs && nowNs * denom < TWO_64
    ensures Mul64(nowNs - nicNs, denom) == (nowNs - nicNs) * denom
  {
    assert (nowNs - nicNs) * denom == nowNs * denom - nicNs * denom;
    assert nicNs * denom >= 0;
  }

  lemma EstimateBack(ticks: nat, est: nat, nicNs: nat, numer: nat, denom: nat)
    requires 0 < numer && 0 < denom && est <= ticks && ticks * numer < TWO_64
    requires nicNs * denom <= est * numer < nicNs * denom + denom + numer
    ensures nicNs <= TicksToNs(est, numer, denom) == est * numer / denom
    ensures TicksToNs(est, numer, denom) * denom < (nicNs + 1) * denom + numer
  {
    assert (ticks - est) * numer == ticks * numer - est * numer;
    assert (ticks - est) * numer >= 0;
    BackBounds(est * numer, nicNs, numer, denom);
  }

  lemma BackBounds(x: nat, nicNs: nat, numer: nat, denom: nat)
    requires 0 < denom && x < TWO_64 && nicNs * denom <= x < nicNs * denom + denom + numer
    ensures x % TWO_64 == x && nicNs <= x % TWO_64 / denom && x % TWO_64 / denom * denom < (nicNs + 1) * denom + numer
  {
    assert x % TWO_64 == x;
    DivCompare(x, denom, nicNs);
    DivBounds(x, denom);
    assert (nicNs + 1) * denom == nicNs * denom + denom;
  }
}
