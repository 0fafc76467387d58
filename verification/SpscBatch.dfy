/**
 Batch calls on the ring that are not interrupted (src/ringbuffer.c:193-298): each is a run of the protocol, against
 one snapshot of the other side's index, and does what one call with all the bytes would do.
 */
module SpscBatches {
  import opened Bytes
  import opened RingBuffers
  import opened Spsc

  ghost function CopyAll(k: nat, n: nat): seq<Action>
    requires k <= n
    decreases n - k
  {
    if k == n then [] else [CopyIn(k)] + CopyAll(k + 1, n)
  }

  lemma {:induction false} RunThen(s: State, a: seq<Action>, b: seq<Action>)
    requires WellFormed(s) && Legal(s, a) && WellFormed(Run(s, a)) && Legal(Run(s, a), b)
    ensures Legal(s, a + b) && Run(s, a + b) == Run(Run(s, a), b)
    decreases |a|
  {
    hide Do, Enabled;
    Unfold(a, b);
    if a == [] {
    } else {
      RunThen(Do(s, a[0]), a[1..], b);
    }
  }

  /** Copying a chunk completely changes nothing but the copied bytes. */
  lemma {:induction false} CopyAllRuns(s: State, k: nat)
    requires Inv(s) && s.producer.Writing? && k <= |s.producer.chunk|
    requires forall i :: i in s.producer.done <==> 0 <= i < k
    ensures var acts := CopyAll(k, |s.producer.chunk|);
      && Legal(s, acts) && Inv(Run(s, acts))
      && var s' := Run(s, acts);
      && ChunkCopied(s'.producer) && s'.producer == s.producer.(done := s'.producer.done)
      && s' == s.(buf := s'.buf, producer := s'.producer) && |s'.buf| == |s.buf|
    decreases |s.producer.chunk| - k
  {
    if k == |s.producer.chunk| {
    } else {
      var s', rest := Do(s, CopyIn(k)), CopyAll(k + 1, |s.producer.chunk|);
      StepIsQueueStep(s, CopyIn(k));
      CopyAllRuns(s', k + 1);
      assert ([CopyIn(k)] + rest)[1..] == rest;
      assert Run(s, [CopyIn(k)] + rest) == Run(s', rest);
    }
  }

  lemma OneStep(s: State, a: Action)
    requires WellFormed(s) && Enabled(s, a) && WellFormed(Do(s, a))
    ensures Legal(s, [a]) && Run(s, [a]) == Do(s, a)
  {
    hide Do, Enabled;
    assert [a][1..] == [];
    assert Run(Do(s, a), []) == Do(s, a);
  }

  /** The next chunk gets what the queue with everything staged so far has room for. */
  lemma NextChunkFits(s: State, data: seq<byte>)
    requires Inv(s) && ChunkCopied(s.producer)
    requires Filled(|s.buf|, s.producer.rpSeen, s.wp) == |Queue(s)|
    ensures var p, p' := s.producer, Do(s, NextChunk(data)).producer;
      && p'.staged == p.staged + p.chunk && p'.done == {} && p'.rpSeen == p.rpSeen
      && |Queue(s) + p'.staged| < |s.buf|
      && Queue(s) + p'.staged + p'.chunk == Push(Queue(s) + p'.staged, |s.buf| - 1, data)
  {
    var p, size := s.producer, |s.buf|;
    AdvancePosition(size, |s.written|, |p.staged|);
    AdvancePosition(size, |s.written|, |p.staged| + |p.chunk|);
    AdvancePosition(size, |s.written| + |p.staged|, |p.chunk|);
    FilledGrows(size, p.rpSeen, s.wp, |p.staged| + |p.chunk|);
  }

  lemma {:induction false} BatchRuns(s: State, chunks: seq<seq<byte>>) returns (acts: seq<Action>)
    requires Inv(s) && s.producer.Writing? && s.producer.done == {}
    requires Filled(|s.buf|, s.producer.rpSeen, s.wp) == |Queue(s)|
    requires |Queue(s) + s.producer.staged + s.producer.chunk| < |s.buf|
    ensures Legal(s, acts) && Inv(Run(s, acts))
    ensures Queue(Run(s, acts))
         == Push(Queue(s) + s.producer.staged + s.producer.chunk, |s.buf| - 1, Concat(chunks))
    decreases |chunks|
  {
    hide Do, WellFormed, SharedOk, ProducerOk, ConsumerOk, Filled, Run, Legal, Enabled;
    var p, cap := s.producer, |s.buf| - 1;
    var copy := CopyAll(0, |p.chunk|);
    CopyAllRuns(s, 0);
    var s1 := Run(s, copy);
    assert Queue(s1) == Queue(s);
    assert p.staged == s1.producer.staged && p.chunk == s1.producer.chunk;
    var q := Queue(s) + p.staged + p.chunk;
    Assoc(Queue(s), p.staged, p.chunk);
    if chunks == [] {
      StoreFinishes(s1);
      RunThen(s, copy, [StoreWrite]);
      acts := copy + [StoreWrite];
      assert Push(q, cap, []) == q;
    } else {
      var a := NextChunk(chunks[0]);
      NextChunkStep(s1, chunks[0]);
      NextChunkFits(s1, chunks[0]);
      var s2 := Do(s1, a);
      var later := BatchRuns(s2, chunks[1..]);
      RunThen(s1, [a], later);
      RunThen(s, copy, [a] + later);
      acts := copy + ([a] + later);
      PushTwice(q, cap, chunks[0], Concat(chunks[1..]));
    }
  }

  lemma StoreFinishes(s: State)
    requires Inv(s) && ChunkCopied(s.producer)
    ensures Legal(s, [StoreWrite]) && Inv(Run(s, [StoreWrite]))
    ensures Queue(Run(s, [StoreWrite])) == Queue(s) + (s.producer.staged + s.producer.chunk)
  {
    StepIsQueueStep(s, StoreWrite);
    OneStep(s, StoreWrite);
  }

  lemma NextChunkStep(s: State, data: seq<byte>)
    requires Inv(s) && ChunkCopied(s.producer)
    ensures Enabled(s, NextChunk(data)) && Legal(s, [NextChunk(data)])
    ensures var s' := Do(s, NextChunk(data));
      && Run(s, [NextChunk(data)]) == s' && Inv(s') && Queue(s') == Queue(s)
      && s' == s.(producer := s'.producer) && s'.producer.Writing?
  {
    StepIsQueueStep(s, NextChunk(data));
    OneStep(s, NextChunk(data));
  }

  /** A batch write that is not interrupted is a legal run, and appends what fits of all its chunks together. */
  lemma UninterruptedBatchWrite(s: State, chunks: seq<seq<byte>>) returns (acts: seq<Action>)
    requires Inv(s) && s.producer.ProducerIdle?
    ensures Legal(s, acts) && Inv(Run(s, acts))
    ensures Queue(Run(s, acts)) == Push(Queue(s), |s.buf| - 1, Concat(chunks))
  {
    StepIsQueueStep(s, LoadRead([]));
    OneStep(s, LoadRead([]));
    FilledPositions(|s.buf|, |s.read|, |s.written|);
    var s' := Do(s, LoadRead([]));
    assert Queue(s') + [] + [] == Queue(s);
    var later := BatchRuns(s', chunks);
    RunThen(s, [LoadRead([])], later);
    acts := [LoadRead([])] + later;
  }

  // ---- and batch reads ---------------------------------------------------------------------------------------

  ghost function FetchAll(k: nat, n: nat): seq<Action>
    requires k <= n
    decreases n - k
  {
    if k == n then [] else [CopyOut(k)] + FetchAll(k + 1, n)
  }

  lemma {:induction false} FetchAllRuns(s: State, k: nat)
    requires Inv(s) && s.consumer.Reading? && k <= s.consumer.want
    requires forall i :: i in s.consumer.got <==> 0 <= i < k
    ensures var acts := FetchAll(k, s.consumer.want);
      && Legal(s, acts) && Inv(Run(s, acts))
      && var s' := Run(s, acts);
      && PieceCopied(s'.consumer) && s'.consumer == s.consumer.(got := s'.consumer.got)
      && s' == s.(consumer := s'.consumer)
    decreases s.consumer.want - k
  {
    hide SharedOk, ProducerOk, ConsumerOk;
    if k == s.consumer.want {
    } else {
      var s', rest := Do(s, CopyOut(k)), FetchAll(k + 1, s.consumer.want);
      StepIsQueueStep(s, CopyOut(k));
      FetchAllRuns(s', k + 1);
      assert ([CopyOut(k)] + rest)[1..] == rest;
      assert Run(s, [CopyOut(k)] + rest) == Run(s', rest);
    }
  }

  lemma NextPieceStep(s: State, len: nat)
    requires Inv(s) && PieceCopied(s.consumer) && s.consumer.wpSeen == s.wp
    ensures Enabled(s, NextPiece(len)) && Legal(s, [NextPiece(len)])
    ensures var s', n := Do(s, NextPiece(len)), |s.consumer.fetched| + s.consumer.want;
      && Run(s, [NextPiece(len)]) == s' && Inv(s') && Queue(s') == Queue(s) && n <= |Queue(s)|
      && s' == s.(consumer := s'.consumer) && s'.consumer.Reading? && s'.consumer.got == map[]
      && s'.consumer.wpSeen == s.wp && |s'.consumer.fetched| == n
      && s'.consumer.want == Min(len, |Queue(s)| - n)
  {
    hide Filled, Legal, Run, Holds, HoldsSome, ProducerOk;
    StepIsQueueStep(s, NextPiece(len));
    OneStep(s, NextPiece(len));
    NextPieceFits(s);
  }

  lemma NextPieceFits(s: State)
    requires Inv(s) && PieceCopied(s.consumer) && s.consumer.wpSeen == s.wp
    ensures var c, size := s.consumer, |s.buf|;
      && |c.fetched| + c.want <= |Queue(s)|
      && Filled(size, Advance(size, c.at, c.want), s.wp) == |Queue(s)| - (|c.fetched| + c.want)
  {
    hide Filled, Holds, HoldsSome, ProducerOk;
    var c, size := s.consumer, |s.buf|;
    FilledPositions(size, |s.read|, |s.written|);
    AdvancePosition(size, |s.read|, |c.fetched| + c.want);
    AdvancePosition(size, |s.read| + |c.fetched|, c.want);
    FilledShrinks(size, s.rp, s.wp, |c.fetched| + c.want);
  }

  lemma {:induction false} BatchReads(s: State, lens: seq<nat>) returns (acts: seq<Action>)
    requires Inv(s) && s.consumer.Reading? && s.consumer.got == map[] && s.consumer.wpSeen == s.wp
    requires |s.consumer.fetched| + s.consumer.want <= |Queue(s)|
    ensures Legal(s, acts) && Inv(Run(s, acts))
    ensures var n := Min(|s.consumer.fetched| + s.consumer.want + Total(lens), |Queue(s)|);
      && Run(s, acts).read == s.read + Queue(s)[..n]
      && Queue(Run(s, acts)) == Queue(s)[n..]
    decreases |lens|
  {
    hide Do, WellFormed, SharedOk, ProducerOk, ConsumerOk, Filled, Run, Legal, Enabled;
    var c := s.consumer;
    var fetch := FetchAll(0, c.want);
    FetchAllRuns(s, 0);
    var s1 := Run(s, fetch);
    assert Queue(s1) == Queue(s);
    if lens == [] {
      LastReadStep(s1);
      RunThen(s, fetch, [StoreRead]);
      acts := fetch + [StoreRead];
    } else {
      var a := NextPiece(lens[0]);
      NextPieceStep(s1, lens[0]);
      var s2 := Do(s1, a);
      var later := BatchReads(s2, lens[1..]);
      RunThen(s1, [a], later);
      RunThen(s, fetch, [a] + later);
      acts := fetch + ([a] + later);
    }
  }

  lemma LastReadStep(s: State)
    requires Inv(s) && PieceCopied(s.consumer)
    ensures var n := |s.consumer.fetched| + s.consumer.want;
      && Legal(s, [StoreRead]) && Inv(Run(s, [StoreRead])) && n <= |Queue(s)|
      && Run(s, [StoreRead]).read == s.read + Queue(s)[..n]
      && Queue(Run(s, [StoreRead])) == Queue(s)[n..]
  {
    hide Do, SharedOk, ProducerOk, ConsumerOk;
    LastRead(s);
    OneStep(s, StoreRead);
  }

  /** A batch read that is not interrupted is a legal run, and returns what a read of the total length returns. */
  lemma UninterruptedBatchRead(s: State, lens: seq<nat>) returns (acts: seq<Action>)
    requires Inv(s) && s.consumer.ConsumerIdle?
    ensures Legal(s, acts) && Inv(Run(s, acts))
    ensures var n := Min(Total(lens), |Queue(s)|);
      && Run(s, acts).read == s.read + Queue(s)[..n]
      && Queue(Run(s, acts)) == Queue(s)[n..]
  {
    hide Filled, Legal, Run, SharedOk, ProducerOk, ConsumerOk;
    StepIsQueueStep(s, LoadWrite(0));
    OneStep(s, LoadWrite(0));
    var s' := Do(s, LoadWrite(0));
    var later := BatchReads(s', lens);
    RunThen(s, [LoadWrite(0)], later);
    acts := [LoadWrite(0)] + later;
  }
}
