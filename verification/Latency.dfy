/**
 The rolling latency window and its percentiles (src/websocket.c:1266-1327 and 1371-1380).
 Latencies are whole nanoseconds; the factor 0.99 is an exact 99/100 here.
 */
module Latencies {
  import opened Bytes

  // ---- Order statistics -----------------------------------------------------------------------------

  /** How many elements lie below v. */
  function CountBelow(s: seq<nat>, v: nat): nat {
    if s == [] then 0 else (if s[0] < v then 1 else 0) + CountBelow(s[1..], v)
  }

  /** v is what stands at position k when s is put in order. */
  ghost predicate IsOrderStatistic(s: seq<nat>, k: nat, v: nat) {
    CountBelow(s, v) <= k < CountBelow(s, v + 1)
  }

  ghost predicate Sorted(s: seq<nat>) { forall i, j | 0 <= i < j < |s| :: s[i] <= s[j] }

  /** There is only one order statistic for each position. */
  lemma OrderStatisticUnique(s: seq<nat>, k: nat, v: nat, w: nat)
    requires IsOrderStatistic(s, k, v) && IsOrderStatistic(s, k, w)
    ensures v == w
  {
    if v < w { CountMonotone(s, v + 1, w); } else if w < v { CountMonotone(s, w + 1, v); }
  }

  lemma {:induction false} CountMonotone(s: seq<nat>, v: nat, w: nat)
    requires v <= w
    ensures CountBelow(s, v) <= CountBelow(s, w)
  {
    if s == [] {
    } else {
      CountMonotone(s[1..], v, w);
    }
  }

  lemma {:induction false} CountAppend(s: seq<nat>, t: seq<nat>, v: nat)
    ensures CountBelow(s + t, v) == CountBelow(s, v) + CountBelow(t, v)
  {
    if s == [] {
      assert s + t == t;
    } else {
      CountAppend(s[1..], t, v);
      assert (s + t)[1..] == s[1..] + t;
    }
  }

  lemma Cancel(x: nat, a: multiset<nat>, b: multiset<nat>)
    requires multiset{x} + a == multiset{x} + b
    ensures a == b
  {
    forall y: nat ensures a[y] == b[y] {
      assert (multiset{x} + a)[y] == (multiset{x} + b)[y];
    }
  }

  /** Counting does not depend on the order. */
  lemma {:induction false} CountPermutation(s: seq<nat>, t: seq<nat>, v: nat)
    requires multiset(s) == multiset(t)
    ensures CountBelow(s, v) == CountBelow(t, v)
    decreases |s|
  {
    if s == [] {
      assert |multiset(t)| == 0;
    } else {
      var x := s[0];
      assert s == [x] + s[1..];
      assert x in multiset(t);
      var i :| 0 <= i < |t| && t[i] == x;
      var front, back := t[..i], t[i + 1..];
      assert t == front + ([x] + back);
      assert multiset(s) == multiset{x} + multiset(s[1..]);
      assert multiset(t) == multiset(front) + (multiset{x} + multiset(back)) == multiset{x} + multiset(front + back);
      Cancel(x, multiset(s[1..]), multiset(front + back));
      CountPermutation(s[1..], front + back, v);
      CountAppend(front, back, v);
      CountAppend(front, [x] + back, v);
    }
  }

  lemma {:induction false} CountBounds(s: seq<nat>, v: nat)
    ensures CountBelow(s, v) <= |s|
    ensures (forall i | 0 <= i < |s| :: s[i] < v) ==> CountBelow(s, v) == |s|
    ensures (forall i | 0 <= i < |s| :: s[i] >= v) ==> CountBelow(s, v) == 0
  {
    if s == [] {
    } else {
      CountBounds(s[1..], v);
    }
  }

  /** In a sorted list the element at position k is the k-th order statistic, of any rearrangement too. */
  lemma SortedGivesOrderStatistic(s: seq<nat>, t: seq<nat>, k: nat)
    requires Sorted(s) && k < |s| && multiset(s) == multiset(t)
    ensures IsOrderStatistic(t, k, s[k])
  {
    SortedCounts(s, k);
    CountPermutation(s, t, s[k]);
    CountPermutation(s, t, s[k] + 1);
  }

  lemma SortedCounts(s: seq<nat>, k: nat)
    requires Sorted(s) && k < |s|
    ensures CountBelow(s, s[k]) <= k < CountBelow(s, s[k] + 1)
  {
    hide CountBelow;
    var v := s[k];
    CountSplit(s, k, v);
    CountSplit(s, k + 1, v + 1);
    CountBounds(s[..k], v);
    CountBounds(s[k..], v);
    CountBounds(s[..k + 1], v + 1);
  }

  lemma CountSplit(s: seq<nat>, k: nat, v: nat)
    requires k <= |s|
    ensures CountBelow(s, v) == CountBelow(s[..k], v) + CountBelow(s[k..], v)
  {
    CountAppend(s[..k], s[k..], v);
    assert s[..k] + s[k..] == s;
  }

  // ---- The window ------------------------------------------------------------------------------------

  /** The last min(|h|, capacity) samples. */
  function Last(h: seq<nat>, capacity: nat): seq<nat> {
    h[|h| - Min(|h|, capacity)..]
  }

  /** The used part of the circular array after the samples h. */
  function Filled(h: seq<nat>, capacity: nat): (s: seq<nat>)
    requires 0 < capacity
    ensures |s| == Min(|h|, capacity)
  {
    if h == [] then [] else
      var n := |h| - 1;
      var s := Filled(h[..n], capacity);
      if n < capacity then s + [h[n]] else s[n % capacity := h[n]]
  }

  /** Sample number j of those still held sits in slot j mod capacity. */
  lemma {:induction false} FilledAt(h: seq<nat>, capacity: nat, j: nat)
    requires 0 < capacity && |h| - Min(|h|, capacity) <= j < |h|
    ensures j % capacity < Min(|h|, capacity)
    ensures Filled(h, capacity)[j % capacity] == h[j]
  {
    var n := |h| - 1;
    if j < capacity { ModOnce(j, capacity); }
    if j < n {
      FilledAt(h[..n], capacity, j);
      if n >= capacity { ModDistinct(j, n, capacity); }
    } else if n < capacity {
      assert Filled(h, capacity)[n] == h[n];
    }
  }

  lemma FilledStep(g: seq<nat>, x: nat, capacity: nat)
    requires 0 < capacity
    ensures Filled(g + [x], capacity)
         == var s := Filled(g, capacity); if |g| < capacity then s + [x] else s[|g| % capacity := x]
  {
    assert (g + [x])[..|g|] == g;
  }

  lemma LastStep(g: seq<nat>, x: nat, capacity: nat)
    requires 0 < capacity
    ensures Last(g + [x], capacity)
         == var w := Last(g, capacity); if |g| < capacity then w + [x] else w[1..] + [x]
  {}

  /** The circular array always holds exactly the most recent samples. */
  lemma {:induction false} FilledIsLast(h: seq<nat>, capacity: nat)
    requires 0 < capacity
    ensures multiset(Filled(h, capacity)) == multiset(Last(h, capacity))
  {
    if h == [] {
    } else {
      var g, x := h[..|h| - 1], h[|h| - 1];
      assert h == g + [x];
      FilledIsLast(g, capacity);
      WindowStep(g, x, capacity);
    }
  }

  lemma WindowStep(g: seq<nat>, x: nat, capacity: nat)
    requires 0 < capacity && multiset(Filled(g, capacity)) == multiset(Last(g, capacity))
    ensures multiset(Filled(g + [x], capacity)) == multiset(Last(g + [x], capacity))
  {
    hide Filled, Last;
    FilledStep(g, x, capacity);
    LastStep(g, x, capacity);
    if |g| >= capacity {
      OldestSlot(g, capacity);
      ReplaceOldest(Filled(g, capacity), |g| % capacity, Last(g, capacity), x);
    }
  }

  /** In a full window, the next slot to be overwritten holds the oldest sample. */
  lemma OldestSlot(g: seq<nat>, capacity: nat)
    requires 0 < capacity <= |g|
    ensures |g| % capacity < capacity
    ensures Filled(g, capacity)[|g| % capacity] == Last(g, capacity)[0]
  {
    var oldest := |g| - capacity;
    FilledAt(g, capacity, oldest);
    ModAdvance(capacity, oldest, capacity);
    DivModUnique(capacity, capacity, 1, 0);
  }

  lemma ReplaceOldest(s: seq<nat>, i: nat, window: seq<nat>, x: nat)
    requires i < |s| && window != [] && multiset(s) == multiset(window) && s[i] == window[0]
    ensures multiset(s[i := x]) == multiset(window[1..] + [x])
  {
    assert window == [window[0]] + window[1..];
    assert multiset(s[i := x]) == multiset(s) - multiset{s[i]} + multiset{x};
  }

  // ---- Sorting in place --------------------------------------------------------------------------------

  /** Everything from `from` on is in its final place. */
  ghost predicate Settled(s: seq<nat>, from: nat) {
    && from <= |s| && Sorted(s[from..])
    && forall i, j | 0 <= i < from <= j < |s| :: s[i] <= s[j]
  }

  ghost predicate MaxAt(s: seq<nat>, j: nat) {
    j < |s| && forall i | 0 <= i <= j :: s[i] <= s[j]
  }

  /** One compare and swap moves the maximum of the front one place on. */
  method CompareSwap(a: array<nat>, j: nat)
    requires j + 1 < a.Length && MaxAt(a[..], j)
    modifies a
    ensures MaxAt(a[..], j + 1)
    ensures multiset(a[..]) == multiset(old(a[..]))
    ensures forall i | 0 <= i < a.Length && i != j && i != j + 1 :: a[i] == old(a[i])
    ensures {old(a[j]), old(a[j + 1])} == {a[j], a[j + 1]}
  {
    if a[j] > a[j + 1] {
      a[j], a[j + 1] := a[j + 1], a[j];
    }
  }

  /** One pass of the bubble sort over the first `n` elements, where the rest is settled. */
  method BubblePass(a: array<nat>, n: nat)
    requires 0 < n <= a.Length && Settled(a[..], n)
    modifies a
    ensures Settled(a[..], n - 1)
    ensures multiset(a[..]) == multiset(old(a[..]))
  {
    var j := 0;
    while j < n - 1
      invariant 0 <= j <= n - 1
      invariant MaxAt(a[..], j) && Settled(a[..], n)
      invariant multiset(a[..]) == multiset(old(a[..]))
    {
      CompareSwap(a, j);
      j := j + 1;
    }
  }

  method BubbleSort(a: array<nat>)
    requires 0 < a.Length
    modifies a
    ensures Sorted(a[..])
    ensures multiset(a[..]) == multiset(old(a[..]))
  {
    var i := 0;
    while i < a.Length - 1
      invariant 0 <= i <= a.Length - 1
      invariant Settled(a[..], a.Length - i)
      invariant multiset(a[..]) == multiset(old(a[..]))
    {
      BubblePass(a, a.Length - i);
      i := i + 1;
    }
    assert Sorted(a[..]);
  }

  method SortedCopy(s: seq<nat>) returns (sorted: array<nat>)
    requires s != []
    ensures fresh(sorted) && sorted.Length == |s|
    ensures Sorted(sorted[..]) && multiset(sorted[..]) == multiset(s)
  {
    sorted := new nat[|s|](i requires 0 <= i < |s| => s[i]);
    assert sorted[..] == s;
    BubbleSort(sorted);
  }

  // ---- The window in place ---------------------------------------------------------------------------

  class LatencyWindow {
    /** The circular array; empty if its allocation failed. */
    const samples: array<nat>
    var count: nat
    var idx: nat
    /** The samples since the last reset. */
    ghost var history: seq<nat>

    ghost predicate Valid()
      reads this, samples
    {
      if samples.Length == 0 then count == 0 && idx == 0
      else
        && count == Min(|history|, samples.Length) && idx == |history| % samples.Length
        && samples[..count] == Filled(history, samples.Length)
    }

    constructor (capacity: nat)
      ensures Valid() && history == [] && samples.Length == capacity
    {
      samples := new nat[capacity];
      count, idx, history := 0, 0, [];
      if capacity > 0 { ModOnce(0, capacity); }
    }

    method Update(latency: nat)
      requires Valid()
      modifies this, samples
      ensures Valid()
      ensures history == old(history) + (if samples.Length == 0 then [] else [latency])
    {
      if samples.Length == 0 {
        return;
      }
      FilledStep(history, latency, samples.Length);
      ModAdvance(|history|, 1, samples.Length);
      if |history| < samples.Length { ModOnce(|history|, samples.Length); }
      ghost var before := samples[..count];
      hide Filled;
      samples[idx] := latency;
      assert count < samples.Length ==> samples[..count + 1] == before + [latency];
      assert count == samples.Length ==> samples[..count] == before[idx := latency];
      idx := (idx + 1) % samples.Length;
      if count < samples.Length {
        count := count + 1;
      }
      history := history + [latency];
    }

    method Reset()
      requires Valid()
      modifies this
      ensures Valid() && history == []
    {
      count, idx, history := 0, 0, [];
      if samples.Length > 0 { ModOnce(0, samples.Length); }
    }

    /** The median and the 99th percentile are order statistics of the most recent samples. */
    method Percentiles() returns (p50: nat, p99: nat)
      requires Valid()
      ensures count == 0 ==> p50 == 0 && p99 == 0
      ensures count > 0 ==>
        var window := Last(history, samples.Length);
        && |window| == count
        && IsOrderStatistic(window, count / 2, p50)
        && IsOrderStatistic(window, Min(count * 99 / 100, count - 1), p99)
        && p50 <= p99
    {
      hide IsOrderStatistic;
      if samples.Length == 0 || count == 0 {
        return 0, 0;
      }
      FilledIsLast(history, samples.Length);
      assert |Last(history, samples.Length)| == count;
      hide Filled, Last;
      var sorted := SortedCopy(samples[..count]);
      var p50Idx := count / 2;
      var p99Idx := count * 99 / 100;
      if p99Idx >= count { p99Idx := count - 1; }
      SortedGivesOrderStatistic(sorted[..], Last(history, samples.Length), p50Idx);
      SortedGivesOrderStatistic(sorted[..], Last(history, samples.Length), p99Idx);
      return sorted[p50Idx], sorted[p99Idx];
    }
  }
}
