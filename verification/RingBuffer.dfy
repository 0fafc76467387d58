/**
 The single-producer single-consumer byte ring (src/ringbuffer.c, src/ringbuffer.h).

 The class keeps the C fields: a fixed byte array, a read index and a write index. One slot
 is never filled, so that equal indices mean "empty". The abstract value is the byte queue
 `Contents()`; every operation is specified on that queue.
 */
module RingBuffers {
  import opened Bytes

  /** Number of bytes between the two indices, going forward from the read index. */
  function Filled(size: nat, rp: nat, wp: nat): (n: nat)
    requires rp < size && wp < size
    ensures n < size
    ensures n == 0 <==> rp == wp
  {
    if wp >= rp then wp - rp else size - rp + wp
  }

  /** Room left for the producer: one byte is reserved to tell full from empty. */
  function Space(size: nat, rp: nat, wp: nat): (n: nat)
    requires rp < size && wp < size
    ensures n + Filled(size, rp, wp) == size - 1
  {
    if wp >= rp then
      var available := size - wp + rp;
      if available > 1 then available - 1 else 0
    else
      rp - wp - 1
  }

  /** The index n slots after p. */
  function Advance(size: nat, p: nat, n: nat): (r: nat)
    requires p < size && n <= size
    ensures r == if p + n < size then p + n else p + n - size
  {
    ModOnce(p + n, size);
    (p + n) % size
  }

  /** Filled is exactly the distance modulo the ring size. */
  lemma FilledIsDistance(size: nat, rp: nat, wp: nat, n: nat)
    requires rp < size && n < size && wp < size
    ensures (rp + n) % size == wp <==> Filled(size, rp, wp) == n
  {
    ModOnce(rp + n, size);
  }

  /** The n bytes starting at slot rp, in ring order. */
  function Window(s: seq<byte>, rp: nat, n: nat): (w: seq<byte>)
    requires rp < |s| && n <= |s|
    ensures |w| == n
  {
    if rp + n <= |s| then s[rp..rp + n] else s[rp..] + s[..rp + n - |s|]
  }

  /** `s` with the bytes `d` laid out from slot `at`, continuing at slot 0. */
  function Stored(s: seq<byte>, at: nat, d: seq<byte>): (r: seq<byte>)
    requires at < |s| && |d| <= |s|
    ensures |r| == |s|
  {
    seq(|s|, i requires 0 <= i < |s| =>
      if at <= i < at + |d| then d[i - at]
      else if i + |s| < at + |d| then d[i + |s| - at]
      else s[i])
  }

  lemma WindowAt(s: seq<byte>, rp: nat, n: nat, i: nat)
    requires rp < |s| && n <= |s| && i < n
    ensures Window(s, rp, n)[i] == s[if rp + i < |s| then rp + i else rp + i - |s|]
  {}

  /** A window is the concatenation of its two halves, the second starting where the first ends. */
  lemma WindowSplit(s: seq<byte>, rp: nat, n: nat, k: nat)
    requires rp < |s| && n <= |s| && k <= n && (k < |s| || n == k)
    ensures Window(s, rp, n) == Window(s, rp, k) + Window(s, Advance(|s|, rp, k), n - k)
  {
    var mid := Advance(|s|, rp, k);
    var whole, left, right := Window(s, rp, n), Window(s, rp, k), Window(s, mid, n - k);
    forall i | 0 <= i < n ensures whole[i] == (left + right)[i] {
      WindowAt(s, rp, n, i);
      if i < k { WindowAt(s, rp, k, i); } else { WindowAt(s, mid, n - k, i - k); }
    }
  }

  /** Storing behind a window appends to it and does not disturb it. */
  lemma StoredAppends(s: seq<byte>, rp: nat, wp: nat, d: seq<byte>)
    requires rp < |s| && wp < |s| && |d| <= Space(|s|, rp, wp)
    ensures var n := Filled(|s|, rp, wp);
      && Filled(|s|, rp, Advance(|s|, wp, |d|)) == n + |d|
      && Window(Stored(s, wp, d), rp, n + |d|) == Window(s, rp, n) + d
  {
    hide Window;
    var n := Filled(|s|, rp, wp);
    var t := Stored(s, wp, d);
    forall i | 0 <= i < n + |d|
      ensures Window(t, rp, n + |d|)[i] == (Window(s, rp, n) + d)[i]
    {
      WindowAt(t, rp, n + |d|, i);
      if i < n { WindowAt(s, rp, n, i); }
    }
  }

  /** Dropping k bytes from the front leaves the bytes from the advanced read index. */
  lemma DropFront(s: seq<byte>, rp: nat, wp: nat, k: nat)
    requires rp < |s| && wp < |s| && k <= Filled(|s|, rp, wp)
    ensures var n, rp' := Filled(|s|, rp, wp), Advance(|s|, rp, k);
      && Filled(|s|, rp', wp) == n - k
      && Window(s, rp, n) == Window(s, rp, k) + Window(s, rp', n - k)
  {
    WindowSplit(s, rp, Filled(|s|, rp, wp), k);
  }

  // ---- The abstract queue -------------------------------------------------------------

  /** A bounded byte queue accepts the longest prefix that fits. */
  function Push(q: seq<byte>, capacity: nat, data: seq<byte>): (r: seq<byte>)
    requires |q| <= capacity
    ensures q <= r && |r| <= capacity
  {
    q + data[..Min(|data|, capacity - |q|)]
  }

  /** The queue after a series of single writes. */
  function PushAll(q: seq<byte>, capacity: nat, chunks: seq<seq<byte>>): (r: seq<byte>)
    requires |q| <= capacity
    ensures |r| <= capacity
    decreases |chunks|
  {
    if chunks == [] then q else PushAll(Push(q, capacity, chunks[0]), capacity, chunks[1..])
  }

  function Total(lens: seq<nat>): nat {
    if lens == [] then 0 else lens[0] + Total(lens[1..])
  }

  /** How many bytes of an `available`-byte queue the first i of a series of reads consume. */
  function Taken(lens: seq<nat>, i: nat, available: nat): (n: nat)
    requires i <= |lens|
    ensures n <= available
  {
    Min(Total(lens[..i]), available)
  }

  /** The pieces a series of single reads returns. */
  function Pieces(q: seq<byte>, lens: seq<nat>): (r: seq<seq<byte>>)
    ensures |r| == |lens|
  {
    if lens == [] then [] else
      var n := Min(lens[0], |q|);
      [q[..n]] + Pieces(q[n..], lens[1..])
  }

  /** Pushing in two goes is pushing the concatenation. */
  lemma PushTwice(q: seq<byte>, capacity: nat, a: seq<byte>, b: seq<byte>)
    requires |q| <= capacity
    ensures Push(Push(q, capacity, a), capacity, b) == Push(q, capacity, a + b)
  {
    var room := capacity - |q|;
    if |a| <= room {
      assert (a + b)[..Min(|a + b|, room)] == a + b[..Min(|b|, room - |a|)];
    } else {
      assert (a + b)[..room] == a[..room];
    }
  }

  /** A series of writes appends exactly the first min(total, room) bytes of the concatenation. */
  lemma {:induction false} PushAllIsOnePush(q: seq<byte>, capacity: nat, chunks: seq<seq<byte>>)
    requires |q| <= capacity
    ensures PushAll(q, capacity, chunks) == Push(q, capacity, Concat(chunks))
    decreases |chunks|
  {
    if chunks == [] {
    } else {
      PushAllIsOnePush(Push(q, capacity, chunks[0]), capacity, chunks[1..]);
      PushTwice(q, capacity, chunks[0], Concat(chunks[1..]));
    }
  }

  /** A series of reads returns consecutive slices of the queue, cut at the running totals. */
  lemma {:induction false} PiecesAreSlices(q: seq<byte>, lens: seq<nat>, i: nat)
    requires i < |lens|
    ensures Taken(lens, i, |q|) <= Taken(lens, i + 1, |q|)
    ensures Pieces(q, lens)[i] == q[Taken(lens, i, |q|)..Taken(lens, i + 1, |q|)]
    decreases |lens|
  {
    hide Taken, Total;
    TakenStep(lens, i, |q|);
    TakenShift(lens, i + 1, |q|);
    if i == 0 {
    } else {
      var n := Min(lens[0], |q|);
      TakenShift(lens, i, |q|);
      PiecesAreSlices(q[n..], lens[1..], i - 1);
      SliceOfRest(q, n, Taken(lens[1..], i - 1, |q| - n), Taken(lens[1..], i, |q| - n));
    }
  }

  lemma SliceOfRest(q: seq<byte>, n: nat, a: nat, b: nat)
    requires n <= |q| && a <= b <= |q| - n
    ensures q[n..][a..b] == q[n + a..n + b]
  {}

  /** The running totals of a series are those of its rest, past the first read. */
  lemma TakenShift(lens: seq<nat>, i: nat, available: nat)
    requires 0 < i <= |lens|
    ensures var n := Min(lens[0], available);
      Taken(lens, i, available) == n + Taken(lens[1..], i - 1, available - n)
    ensures Taken(lens, 0, available) == 0 == Taken(lens[1..], 0, available)
  {
    assert lens[..i][1..] == lens[1..][..i - 1];
  }

  lemma {:induction false} TotalSnoc(lens: seq<nat>, x: nat)
    ensures Total(lens + [x]) == Total(lens) + x
  {
    if lens == [] {
      assert [x][1..] == [] && lens + [x] == [x];
    } else {
      TotalSnoc(lens[1..], x);
      assert (lens + [x])[1..] == lens[1..] + [x];
    }
  }

  lemma TakenStep(lens: seq<nat>, i: nat, available: nat)
    requires i < |lens|
    ensures Taken(lens, i + 1, available) == Min(Taken(lens, i, available) + lens[i], available)
  {
    TotalSnoc(lens[..i], lens[i]);
    assert lens[..i] + [lens[i]] == lens[..i + 1];
  }

  lemma {:induction false} TakenSaturated(lens: seq<nat>, i: nat, k: nat, available: nat)
    requires i <= k <= |lens| && Taken(lens, i, available) == available
    ensures Taken(lens, k, available) == available
  {
    if i == k {
    } else {
      TakenSaturated(lens, i, k - 1, available);
      TakenStep(lens, k - 1, available);
    }
  }

  /** Once the queue is exhausted every later read returns nothing. */
  lemma EmptyPieces(q: seq<byte>, lens: seq<nat>, i: nat)
    requires i <= |lens| && Taken(lens, i, |q|) == |q|
    ensures Taken(lens, |lens|, |q|) == |q|
    ensures forall k | i <= k < |lens| :: Pieces(q, lens)[k] == []
  {
    TakenSaturated(lens, i, |lens|, |q|);
    forall k | i <= k < |lens| ensures Pieces(q, lens)[k] == [] {
      TakenSaturated(lens, i, k, |q|);
      PiecesAreSlices(q, lens, k);
    }
  }

  /** One more chunk pushes one more time. */
  lemma PushNext(q: seq<byte>, capacity: nat, chunks: seq<seq<byte>>, i: nat)
    requires |q| <= capacity && i < |chunks|
    ensures Push(q, capacity, Concat(chunks[..i + 1]))
         == Push(Push(q, capacity, Concat(chunks[..i])), capacity, chunks[i])
  {
    assert chunks[..i + 1] == chunks[..i] + [chunks[i]];
    ConcatSnoc(chunks[..i], chunks[i]);
    PushTwice(q, capacity, Concat(chunks[..i]), chunks[i]);
  }

  /** When the queue is full no later chunk changes it. */
  lemma PushFull(q: seq<byte>, capacity: nat, chunks: seq<seq<byte>>, i: nat)
    requires |q| <= capacity && i <= |chunks|
    requires |Push(q, capacity, Concat(chunks[..i]))| == capacity
    ensures Push(q, capacity, Concat(chunks)) == Push(q, capacity, Concat(chunks[..i]))
  {
    assert chunks == chunks[..i] + chunks[i..];
    ConcatAppend(chunks[..i], chunks[i..]);
    PushTwice(q, capacity, Concat(chunks[..i]), Concat(chunks[i..]));
  }

  // ---- Zero-copy views --------------------------------------------------------------------

  /** The region the read view offers: its start and length. It is linear iff it does not cross the end. */
  function ReadView(size: nat, rp: nat, wp: nat): (r: (nat, nat))
    requires rp < size && wp < size
    ensures r.1 == Filled(size, rp, wp)
    ensures r.0 + r.1 <= size <==> rp <= wp || wp == 0
  {
    (rp, if wp >= rp then wp - rp else size - rp + wp)
  }

  /** The region the write view offers. It stays inside the array, but may offer the reserved byte. */
  function WriteView(size: nat, rp: nat, wp: nat): (r: (nat, nat))
    requires rp < size && wp < size
    ensures r.0 == wp && r.0 + r.1 <= size
    ensures Filled(size, rp, wp) + r.1 <= size
    ensures Filled(size, rp, wp) + r.1 == size <==> rp == 0 || wp < rp
  {
    var len := if wp >= rp then (if rp == 0 && wp == size then 0 else size - wp) else rp - wp;
    (wp, len)
  }

  /** The two-case index update of the socket read is one addition modulo the ring size. */
  function Committed(size: nat, wp: nat, n: nat): (r: nat)
    requires wp < size && n <= size - wp
    ensures r < size && r == (wp + n) % size
  {
    var newWp := wp + n;
    var secondPart := if newWp >= size then n - (size - wp) else newWp;
    ModOnce(newWp, size);
    ModOnce(secondPart, size);
    secondPart % size
  }

  /** After a commit of n offered bytes the fill is (old + n) mod size: exact unless it reaches size. */
  lemma CommitFill(size: nat, rp: nat, wp: nat, n: nat)
    requires rp < size && wp < size && n <= WriteView(size, rp, wp).1
    ensures var old' := Filled(size, rp, wp); var new' := Filled(size, rp, Committed(size, wp, n));
      && new' == (old' + n) % size
      && (new' == old' + n <==> old' + n < size)
      && (old' + n == size ==> new' == 0)
  {
    ModOnce(wp + n, size);
    ModOnce(Filled(size, rp, wp) + n, size);
  }

  /**
   After a commit that loses nothing, the read view is linear exactly if the write index had not wrapped behind
   the read index.
   */
  lemma CommitLinearIff(size: nat, rp: nat, wp: nat, n: nat)
    requires rp < size && wp < size && 0 < n <= WriteView(size, rp, wp).1
    requires Filled(size, rp, wp) + n < size
    ensures var view := ReadView(size, rp, Committed(size, wp, n)); view.0 + view.1 <= size <==> rp <= wp
  {
    CommitFill(size, rp, wp, n);
  }

  /** A non-crossing read view is the queue, as one slice of the array. */
  lemma LinearView(s: seq<byte>, rp: nat, wp: nat)
    requires rp < |s| && wp < |s| && rp + Filled(|s|, rp, wp) <= |s|
    ensures Window(s, rp, Filled(|s|, rp, wp)) == s[rp..rp + Filled(|s|, rp, wp)]
  {}

  // ---- The ring -------------------------------------------------------------------------

  class RingBuffer {
    const buf: array<byte>
    var readPtr: nat
    var writePtr: nat

    ghost predicate Valid()
      reads this
    {
      readPtr < buf.Length && writePtr < buf.Length
    }

    /** The bytes between two indices of this ring. */
    ghost function Between(rp: nat, wp: nat): (q: seq<byte>)
      requires rp < buf.Length && wp < buf.Length
      reads buf
      ensures |q| == Filled(buf.Length, rp, wp)
    {
      Window(buf[..], rp, Filled(buf.Length, rp, wp))
    }

    /** The queued bytes, oldest first. */
    ghost function Contents(): (q: seq<byte>)
      requires Valid()
      reads this, buf
    {
      Between(readPtr, writePtr)
    }

    constructor (size: nat)
      requires 0 < size
      ensures Valid() && fresh(buf) && buf.Length == size
      ensures readPtr == 0 && Contents() == []
    {
      buf := new byte[size];
      readPtr, writePtr := 0, 0;
    }

    /** Free space; together with the queued bytes it is always one less than the ring. */
    method Writeable() returns (n: nat)
      requires Valid()
      ensures n + |Contents()| == buf.Length - 1
    {
      n := Space(buf.Length, readPtr, writePtr);
    }

    method Readable() returns (n: nat)
      requires Valid()
      ensures n == |Contents()|
    {
      n := if writePtr >= readPtr then writePtr - readPtr else buf.Length - readPtr + writePtr;
    }

    method Reset()
      requires Valid()
      modifies this
      ensures Valid() && readPtr == 0 && Contents() == []
    {
      readPtr, writePtr := 0, 0;
    }

    /** The one or two block copies that lay `data` out from slot `wp`. */
    method CopyIn(wp: nat, data: seq<byte>)
      requires wp < buf.Length && |data| <= buf.Length
      modifies buf
      ensures buf[..] == Stored(old(buf[..]), wp, data)
    {
      if wp + |data| <= buf.Length {
        forall k | 0 <= k < |data| { buf[wp + k] := data[k]; }
      } else {
        var firstPart := buf.Length - wp;
        forall k | 0 <= k < firstPart { buf[wp + k] := data[k]; }
        forall k | 0 <= k < |data| - firstPart { buf[k] := data[firstPart + k]; }
      }
    }

    /** The one or two block copies that fetch n bytes from slot `rp`. */
    method CopyOut(rp: nat, n: nat) returns (out: seq<byte>)
      requires rp < buf.Length && n <= buf.Length
      ensures out == Window(buf[..], rp, n)
    {
      if rp + n <= buf.Length {
        out := buf[rp..rp + n];
      } else {
        var firstPart := buf.Length - rp;
        out := buf[rp..] + buf[..n - firstPart];
      }
    }

    /** Copies what fits of `data` behind the bytes between rp and wp, without publishing it. */
    method Stage(rp: nat, wp: nat, data: seq<byte>) returns (next: nat, n: nat)
      requires rp < buf.Length && wp < buf.Length
      modifies buf
      ensures next < buf.Length
      ensures n == Min(|data|, buf.Length - 1 - old(|Between(rp, wp)|))
      ensures Between(rp, next) == old(Between(rp, wp)) + data[..n]
    {
      hide Window, Stored;
      var available := Space(buf.Length, rp, wp);
      n := if |data| < available then |data| else available;
      CopyIn(wp, data[..n]);
      next := Advance(buf.Length, wp, n);
      StoredAppends(old(buf[..]), rp, wp, data[..n]);
    }

    /** Copies out up to `len` of the bytes between rp and wp, without publishing the new index. */
    method Fetch(rp: nat, wp: nat, len: nat) returns (next: nat, out: seq<byte>)
      requires rp < buf.Length && wp < buf.Length
      ensures next < buf.Length
      ensures |out| == Min(len, |Between(rp, wp)|)
      ensures Between(rp, wp) == out + Between(next, wp)
    {
      hide Window;
      var available := if wp >= rp then wp - rp else buf.Length - rp + wp;
      var n := if len < available then len else available;
      out := CopyOut(rp, n);
      next := Advance(buf.Length, rp, n);
      DropFront(buf[..], rp, wp, n);
    }

    /** Appends the longest prefix of `data` that fits. */
    method Write(data: seq<byte>) returns (written: nat)
      requires Valid()
      modifies this`writePtr, buf
      ensures Valid()
      ensures written == Min(|data|, buf.Length - 1 - old(|Contents()|))
      ensures Contents() == old(Contents()) + data[..written]
    {
      if |data| == 0 { return 0; }
      var available := Space(buf.Length, readPtr, writePtr);
      if available == 0 { return 0; }
      var wp;
      wp, written := Stage(readPtr, writePtr, data);
      writePtr := wp;
    }

    /** Removes and returns the first `len` queued bytes, or all of them if there are fewer. */
    method Read(len: nat) returns (out: seq<byte>)
      requires Valid()
      modifies this`readPtr
      ensures Valid()
      ensures |out| == Min(len, old(|Contents()|))
      ensures old(Contents()) == out + Contents()
    {
      if len == 0 { return []; }
      var rp;
      rp, out := Fetch(readPtr, writePtr, len);
      readPtr := rp;
    }

    /** Publishes a new read index n bytes further on, dropping those n bytes. */
    method AdvanceRead(n: nat)
      requires Valid() && n <= |Contents()|
      modifies this`readPtr
      ensures Valid()
      ensures readPtr == Advance(buf.Length, old(readPtr), n)
      ensures Contents() == old(Contents())[n..]
      ensures readPtr == old(readPtr) <==> n == 0
    {
      DropFront(buf[..], readPtr, writePtr, n);
      readPtr := Advance(buf.Length, readPtr, n);
    }

    /** The batch loop: stages chunk after chunk against one snapshot of the read index. */
    method StageAll(rp: nat, wp0: nat, chunks: seq<seq<byte>>) returns (wp: nat, total: nat)
      requires rp < buf.Length && wp0 < buf.Length
      modifies buf
      ensures wp < buf.Length
      ensures Between(rp, wp) == Push(old(Between(rp, wp0)), buf.Length - 1, Concat(chunks))
      ensures total == |Between(rp, wp)| - old(|Between(rp, wp0)|)
    {
      ghost var q, cap := Between(rp, wp0), buf.Length - 1;
      wp, total := wp0, 0;
      var i := 0;
      while i < |chunks|
        invariant i <= |chunks| && wp < buf.Length
        invariant Between(rp, wp) == Push(q, cap, Concat(chunks[..i]))
        invariant total == |Between(rp, wp)| - |q|
      {
        PushNext(q, cap, chunks, i);
        if |chunks[i]| != 0 {
          var available := Space(buf.Length, rp, wp);
          if available == 0 {
            PushFull(q, cap, chunks, i);
            break;
          }
          var n;
          wp, n := Stage(rp, wp, chunks[i]);
          total := total + n;
        }
        i := i + 1;
      }
      assert i == |chunks| ==> chunks[..i] == chunks;
    }

    /** One index load, a loop over the chunks, one index store. */
    method BatchWrite(chunks: seq<seq<byte>>) returns (total: nat)
      requires Valid()
      modifies this`writePtr, buf
      ensures Valid()
      ensures total == Min(|Concat(chunks)|, buf.Length - 1 - old(|Contents()|))
      ensures Contents() == old(Contents()) + Concat(chunks)[..total]
      ensures Contents() == PushAll(old(Contents()), buf.Length - 1, chunks)
    {
      var wp;
      wp, total := StageAll(readPtr, writePtr, chunks);
      PushAllIsOnePush(old(Contents()), buf.Length - 1, chunks);
      if total > 0 { writePtr := wp; }
    }

    /** The batch loop: fetches piece after piece against one snapshot of the write index. */
    method FetchAll(rp0: nat, wp: nat, lens: seq<nat>)
      returns (rp: nat, outs: seq<seq<byte>>, total: nat)
      requires rp0 < buf.Length && wp < buf.Length
      ensures rp < buf.Length
      ensures total == Taken(lens, |lens|, |Between(rp0, wp)|)
      ensures Between(rp, wp) == Between(rp0, wp)[total..]
      ensures outs == Pieces(Between(rp0, wp), lens)
    {
      hide Window, Filled, Pieces;
      ghost var q := Between(rp0, wp);
      rp, outs, total := rp0, seq(|lens|, _ => []), 0;
      var i := 0;
      while i < |lens|
        invariant i <= |lens| == |outs| && rp < buf.Length
        invariant total == Taken(lens, i, |q|)
        invariant Between(rp, wp) == q[total..]
        invariant forall k | 0 <= k < i :: outs[k] == Pieces(q, lens)[k]
        invariant forall k | i <= k < |lens| :: outs[k] == []
      {
        TakenStep(lens, i, |q|);
        PiecesAreSlices(q, lens, i);
        if lens[i] != 0 {
          var available := if wp >= rp then wp - rp else buf.Length - rp + wp;
          if available == 0 {
            EmptyPieces(q, lens, i);
            break;
          }
          var out;
          rp, out := Fetch(rp, wp, lens[i]);
          assert q[total..] == out + Between(rp, wp);
          assert q[total + |out|..] == q[total..][|out|..];
          outs := outs[i := out];
          total := total + |out|;
        }
        i := i + 1;
      }
    }

    /** One index load, a loop over the destination sizes, one index store. */
    method BatchRead(lens: seq<nat>) returns (outs: seq<seq<byte>>, total: nat)
      requires Valid()
      modifies this`readPtr
      ensures Valid()
      ensures total == Taken(lens, |lens|, old(|Contents()|))
      ensures outs == Pieces(old(Contents()), lens)
      ensures Contents() == old(Contents())[total..]
    {
      var rp;
      rp, outs, total := FetchAll(readPtr, writePtr, lens);
      if total > 0 { readPtr := rp; }
    }

    /** A socket read into the offered region: `data` arrives at the write index, which is then moved. */
    method Commit(data: seq<byte>)
      requires Valid() && |data| <= WriteView(buf.Length, readPtr, writePtr).1
      modifies this`writePtr, buf
      ensures Valid()
      ensures writePtr == (old(writePtr) + |data|) % buf.Length
      ensures |Contents()| == (old(|Contents()|) + |data|) % buf.Length
      ensures old(|Contents()|) + |data| <= buf.Length
      ensures Contents() == if old(|Contents()|) + |data| < buf.Length then old(Contents()) + data else []
    {
      hide Window, Stored;
      CommitFill(buf.Length, readPtr, writePtr, |data|);
      if |Contents()| + |data| < buf.Length {
        StoredAppends(buf[..], readPtr, writePtr, data);
      }
      CopyIn(writePtr, data);
      writePtr := Committed(buf.Length, writePtr, |data|);
    }
  }
}
