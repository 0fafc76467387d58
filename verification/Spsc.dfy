/**
 The ring under concurrency (src/ringbuffer.c:64-146 and the batch loops at 193-298).

 One producer thread and one consumer thread interleave at the grain of single memory accesses:
 a load of the other side's index, the copy of one byte, the store of one's own index. Between
 the load and the store a thread works from a snapshot that the other side may have overtaken.
 Block copies may move their bytes in any order. Index loads and stores are atomic.
 */
module Spsc {
  import opened Bytes
  import opened RingBuffers

  /** `at` is the local write index of the chunk being copied, `staged` what earlier chunks of the call copied. */
  datatype Producer =
    | ProducerIdle
    | Writing(rpSeen: nat, at: nat, staged: seq<byte>, chunk: seq<byte>, done: set<nat>)

  datatype Consumer =
    | ConsumerIdle
    | Reading(wpSeen: nat, at: nat, fetched: seq<byte>, want: nat, got: map<nat, byte>)

  /** Shared memory, the two threads, and the record of published writes and returned reads. */
  datatype State = State(
    buf: seq<byte>, rp: nat, wp: nat,
    producer: Producer, consumer: Consumer,
    written: seq<byte>, read: seq<byte>)

  datatype Action =
    | LoadRead(data: seq<byte>)     // producer: acquire the read index, size the copy
    | CopyIn(k: nat)                // producer: one byte of the block copy
    | NextChunk(data: seq<byte>)    // producer: batch form, next chunk against the same snapshot
    | StoreWrite                    // producer: release the write index
    | LoadWrite(len: nat)           // consumer: acquire the write index
    | CopyOut(k: nat)
    | NextPiece(len: nat)
    | StoreRead

  function Init(buf: seq<byte>): State {
    State(buf, 0, 0, ProducerIdle, ConsumerIdle, [], [])
  }

  /** Slot of byte k of an n-byte block copy at `at`: the copy is split at the end of the array. */
  function CopySlot(size: nat, at: nat, n: nat, k: nat): (slot: nat)
    requires at < size && n <= size && k < n
    ensures slot < size && slot == Advance(size, at, k)
  {
    if at + n <= size then at + k else
      var firstPart := size - at;
      if k < firstPart then at + k else k - firstPart
  }

  ghost predicate WellFormed(s: State) {
    && s.rp < |s.buf| && s.wp < |s.buf|
    && (s.producer.Writing? ==>
          && s.producer.rpSeen < |s.buf| && s.producer.at < |s.buf|
          && |s.producer.chunk| < |s.buf|
          && forall k <- s.producer.done :: k < |s.producer.chunk|)
    && (s.consumer.Reading? ==>
          && s.consumer.wpSeen < |s.buf| && s.consumer.at < |s.buf|
          && s.consumer.want < |s.buf|
          && forall k <- s.consumer.got :: k < s.consumer.want)
  }

  ghost predicate ChunkCopied(p: Producer) {
    p.Writing? && forall k | 0 <= k < |p.chunk| :: k in p.done
  }

  ghost predicate PieceCopied(c: Consumer) {
    c.Reading? && forall k | 0 <= k < c.want :: k in c.got
  }

  ghost predicate Enabled(s: State, a: Action)
    requires WellFormed(s)
  {
    match a
    case LoadRead(data) => s.producer.ProducerIdle?
    case CopyIn(k) => s.producer.Writing? && k < |s.producer.chunk| && k !in s.producer.done
    case NextChunk(data) => ChunkCopied(s.producer)
    case StoreWrite => ChunkCopied(s.producer)
    case LoadWrite(len) => s.consumer.ConsumerIdle?
    case CopyOut(k) => s.consumer.Reading? && k < s.consumer.want && k !in s.consumer.got
    case NextPiece(len) => PieceCopied(s.consumer)
    case StoreRead => PieceCopied(s.consumer)
  }

  /** The bytes a completed piece fetched, in order. */
  ghost function Piece(c: Consumer): seq<byte>
    requires PieceCopied(c)
  {
    seq(c.want, k requires 0 <= k < c.want => c.got[k])
  }

  ghost function Do(s: State, a: Action): (s': State)
    requires WellFormed(s) && Enabled(s, a)
    ensures |s'.buf| == |s.buf|
  {
    var size := |s.buf|;
    match a
    case LoadRead(data) =>
      s.(producer := Writing(s.rp, s.wp, [], data[..Min(|data|, Space(size, s.rp, s.wp))], {}))
    case CopyIn(k) =>
      var p := s.producer;
      s.(buf := s.buf[CopySlot(size, p.at, |p.chunk|, k) := p.chunk[k]],
         producer := p.(done := p.done + {k}))
    case NextChunk(data) =>
      var p := s.producer;
      var at := Advance(size, p.at, |p.chunk|);
      s.(producer := Writing(p.rpSeen, at, p.staged + p.chunk,
                             data[..Min(|data|, Space(size, p.rpSeen, at))], {}))
    case StoreWrite =>
      var p := s.producer;
      s.(wp := Advance(size, p.at, |p.chunk|), producer := ProducerIdle,
         written := s.written + p.staged + p.chunk)
    case LoadWrite(len) =>
      s.(consumer := Reading(s.wp, s.rp, [], Min(len, Filled(size, s.rp, s.wp)), map[]))
    case CopyOut(k) =>
      var c := s.consumer;
      s.(consumer := c.(got := c.got[k := s.buf[CopySlot(size, c.at, c.want, k)]]))
    case NextPiece(len) =>
      var c := s.consumer;
      var at := Advance(size, c.at, c.want);
      s.(consumer := Reading(c.wpSeen, at, c.fetched + Piece(c),
                             Min(len, Filled(size, at, c.wpSeen)), map[]))
    case StoreRead =>
      var c := s.consumer;
      s.(rp := Advance(size, c.at, c.want), consumer := ConsumerIdle,
         read := s.read + c.fetched + Piece(c))
  }

  // ---- The invariant ------------------------------------------------------------------------

  /** Stream positions from..from+|d| sit in their slots. */
  ghost predicate Holds(buf: seq<byte>, from: nat, d: seq<byte>)
    requires 0 < |buf|
  {
    forall i | 0 <= i < |d| :: buf[(from + i) % |buf|] == d[i]
  }

  ghost predicate HoldsSome(buf: seq<byte>, from: nat, d: seq<byte>, done: set<nat>)
    requires 0 < |buf|
  {
    forall k <- done :: k < |d| && buf[(from + k) % |buf|] == d[k]
  }

  /** Indices are stream positions modulo the size, and every unread byte is in its slot. */
  ghost predicate SharedOk(s: State)
    requires WellFormed(s)
  {
    && |s.read| <= |s.written| < |s.read| + |s.buf|
    && s.rp == |s.read| % |s.buf| && s.wp == |s.written| % |s.buf|
    && Holds(s.buf, |s.read|, s.written[|s.read|..])
    && s.read == s.written[..|s.read|]
  }

  /** The producer's stale view never overestimates the free space. */
  ghost predicate ProducerOk(s: State)
    requires WellFormed(s) && s.producer.Writing?
  {
    var p, start := s.producer, |s.written|;
    && p.at == (start + |p.staged|) % |s.buf|
    && |s.written| - |s.read| <= Filled(|s.buf|, p.rpSeen, s.wp)
    && Filled(|s.buf|, p.rpSeen, s.wp) + |p.staged| + |p.chunk| < |s.buf|
    && Holds(s.buf, start, p.staged)
    && HoldsSome(s.buf, start + |p.staged|, p.chunk, p.done)
  }

  /** The consumer's stale view never overestimates the available bytes. */
  ghost predicate ConsumerOk(s: State)
    requires WellFormed(s) && s.consumer.Reading?
  {
    var c, start := s.consumer, |s.read|;
    && c.at == (start + |c.fetched|) % |s.buf|
    && |c.fetched| + c.want <= Filled(|s.buf|, s.rp, c.wpSeen) <= |s.written| - |s.read|
    && start + |c.fetched| <= |s.written|
    && c.fetched == s.written[start..start + |c.fetched|]
    && forall k <- c.got :: start + |c.fetched| + k < |s.written|
                            && c.got[k] == s.written[start + |c.fetched| + k]
  }

  ghost predicate Inv(s: State) {
    && WellFormed(s)
    && SharedOk(s)
    && (s.producer.Writing? ==> ProducerOk(s))
    && (s.consumer.Reading? ==> ConsumerOk(s))
  }

  /** The queue as both sides can see it: published and not yet released. */
  ghost function Queue(s: State): seq<byte>
    requires Inv(s)
  {
    s.written[|s.read|..]
  }

  lemma InitInv(buf: seq<byte>)
    requires 0 < |buf|
    ensures Inv(Init(buf))
  {
    DivModUnique(0, |buf|, 0, 0);
  }

  // ---- Arithmetic of slots ------------------------------------------------------------------

  /** Advancing a reduced position is advancing the position. */
  lemma AdvancePosition(size: nat, pos: nat, n: nat)
    requires 0 < size && n <= size
    ensures pos % size < size && Advance(size, pos % size, n) == (pos + n) % size
  {
    ModAdvance(pos, n, size);
  }

  /** The fill between two positions less than a ring apart. */
  lemma FilledPositions(size: nat, from: nat, to: nat)
    requires from <= to < from + size
    ensures from % size < size && to % size < size
    ensures Filled(size, from % size, to % size) == to - from
  {
    ModAdvance(from, to - from, size);
    FilledIsDistance(size, from % size, to % size, to - from);
  }

  lemma FilledGrows(size: nat, rp: nat, wp: nat, n: nat)
    requires rp < size && wp < size && Filled(size, rp, wp) + n < size
    ensures Filled(size, rp, Advance(size, wp, n)) == Filled(size, rp, wp) + n
  {}

  lemma FilledShrinks(size: nat, rp: nat, wp: nat, n: nat)
    requires rp < size && wp < size && n <= Filled(size, rp, wp)
    ensures Filled(size, Advance(size, rp, n), wp) == Filled(size, rp, wp) - n
  {}

  /** A store behind a held range, less than a ring from its start, leaves it alone. */
  lemma StoreKeeps(buf: seq<byte>, from: nat, d: seq<byte>, pos: nat, x: byte)
    requires 0 < |buf| && Holds(buf, from, d) && from + |d| <= pos < from + |buf|
    ensures Holds(buf[pos % |buf| := x], from, d)
  {
    forall i | 0 <= i < |d| ensures buf[pos % |buf| := x][(from + i) % |buf|] == d[i] {
      ModDistinct(from + i, pos, |buf|);
    }
  }

  lemma HoldsJoin(buf: seq<byte>, from: nat, a: seq<byte>, b: seq<byte>)
    requires 0 < |buf| && Holds(buf, from, a) && Holds(buf, from + |a|, b)
    ensures Holds(buf, from, a + b)
  {
    forall i | 0 <= i < |a + b| ensures buf[(from + i) % |buf|] == (a + b)[i] {
      if i >= |a| { assert from + i == from + |a| + (i - |a|); }
    }
  }

  // ---- Every step keeps the invariant ---------------------------------------------------------

  lemma CopyInKeeps(s: State, k: nat)
    requires Inv(s) && Enabled(s, CopyIn(k))
    ensures Inv(Do(s, CopyIn(k)))
  {
    hide Filled, Space, CopySlot;
    var p, size := s.producer, |s.buf|;
    var pos := |s.written| + |p.staged| + k;
    AdvancePosition(size, |s.written| + |p.staged|, k);
    assert CopySlot(size, p.at, |p.chunk|, k) == pos % size;
    StoreKeeps(s.buf, |s.read|, s.written[|s.read|..], pos, p.chunk[k]);
    StoreKeeps(s.buf, |s.written|, p.staged, pos, p.chunk[k]);
    var buf' := s.buf[pos % size := p.chunk[k]];
    forall j <- p.done + {k}
      ensures j < |p.chunk| && buf'[(|s.written| + |p.staged| + j) % size] == p.chunk[j]
    {
      if j < k { ModDistinct(|s.written| + |p.staged| + j, pos, size); }
      if j > k { ModDistinct(pos, |s.written| + |p.staged| + j, size); }
    }
  }

  /** When every byte of the chunk is copied, staged and chunk together are in place. */
  lemma ChunkInPlace(s: State)
    requires Inv(s) && ChunkCopied(s.producer)
    ensures var p := s.producer; Holds(s.buf, |s.written|, p.staged + p.chunk)
    ensures var p := s.producer;
      Advance(|s.buf|, p.at, |p.chunk|) == (|s.written| + |p.staged| + |p.chunk|) % |s.buf|
  {
    var p := s.producer;
    AdvancePosition(|s.buf|, |s.written| + |p.staged|, |p.chunk|);
    HoldsJoin(s.buf, |s.written|, p.staged, p.chunk);
  }

  lemma NextChunkKeeps(s: State, data: seq<byte>)
    requires Inv(s) && Enabled(s, NextChunk(data))
    ensures Inv(Do(s, NextChunk(data)))
  {
    var p, size := s.producer, |s.buf|;
    ChunkInPlace(s);
    var n := |p.staged| + |p.chunk|;
    AdvancePosition(size, |s.written|, n);
    FilledGrows(size, p.rpSeen, s.wp, n);
  }

  lemma StoreWriteShared(s: State)
    requires Inv(s) && Enabled(s, StoreWrite)
    ensures WellFormed(Do(s, StoreWrite)) && SharedOk(Do(s, StoreWrite))
    ensures Do(s, StoreWrite).written[|s.read|..] == Queue(s) + s.producer.staged + s.producer.chunk
  {
    var p, s' := s.producer, Do(s, StoreWrite);
    ChunkInPlace(s);
    HoldsJoin(s.buf, |s.read|, Queue(s), p.staged + p.chunk);
    assert s'.written[|s.read|..] == Queue(s) + (p.staged + p.chunk);
  }

  lemma StoreWriteKeeps(s: State)
    requires Inv(s) && Enabled(s, StoreWrite)
    ensures Inv(Do(s, StoreWrite))
    ensures Queue(Do(s, StoreWrite)) == Queue(s) + s.producer.staged + s.producer.chunk
  {
    hide Filled, Holds, HoldsSome;
    StoreWriteShared(s);
    if s.consumer.Reading? {
      var n := |s.read| + |s.consumer.fetched|;
      assert Do(s, StoreWrite).written[|s.read|..n] == s.written[|s.read|..n];
    }
  }

  /** A completed piece is the next stretch of the stream. */
  lemma PieceInOrder(s: State)
    requires Inv(s) && PieceCopied(s.consumer)
    ensures var c := s.consumer; var end := |s.read| + |c.fetched| + c.want;
      && end <= |s.written|
      && c.fetched + Piece(c) == s.written[|s.read|..end]
      && Advance(|s.buf|, c.at, c.want) == end % |s.buf|
  {
    AdvancePosition(|s.buf|, |s.read| + |s.consumer.fetched|, s.consumer.want);
  }

  lemma CopyOutKeeps(s: State, k: nat)
    requires Inv(s) && Enabled(s, CopyOut(k))
    ensures Inv(Do(s, CopyOut(k)))
  {
    hide Filled, Space, CopySlot;
    var c, size := s.consumer, |s.buf|;
    var pos := |s.read| + |c.fetched| + k;
    AdvancePosition(size, |s.read| + |c.fetched|, k);
    assert CopySlot(size, c.at, c.want, k) == pos % size;
    assert s.written[|s.read|..][|c.fetched| + k] == s.written[pos];
    assert s.buf[(|s.read| + (|c.fetched| + k)) % size] == s.written[pos];
  }

  lemma NextPieceKeeps(s: State, len: nat)
    requires Inv(s) && Enabled(s, NextPiece(len))
    ensures Inv(Do(s, NextPiece(len)))
  {
    var c, size := s.consumer, |s.buf|;
    PieceInOrder(s);
    var n := |c.fetched| + c.want;
    AdvancePosition(size, |s.read|, n);
    FilledShrinks(size, s.rp, c.wpSeen, n);
  }

  lemma HoldsDrop(buf: seq<byte>, from: nat, d: seq<byte>, n: nat)
    requires 0 < |buf| && Holds(buf, from, d) && n <= |d|
    ensures Holds(buf, from + n, d[n..])
  {
    forall i | 0 <= i < |d[n..]| ensures buf[(from + n + i) % |buf|] == d[n..][i] {
      assert buf[(from + (n + i)) % |buf|] == d[n + i];
    }
  }

  /** Storing the read index moves the boundary to the end of the completed piece, and changes nothing else. */
  lemma StoreReadMoves(s: State)
    requires Inv(s) && Enabled(s, StoreRead)
    ensures var end := |s.read| + |s.consumer.fetched| + s.consumer.want;
      && end <= |s.written|
      && s.consumer.fetched + Piece(s.consumer) == s.written[|s.read|..end]
      && Do(s, StoreRead) == s.(rp := end % |s.buf|, consumer := ConsumerIdle, read := s.written[..end])
  {
    hide Filled, Holds, HoldsSome, ProducerOk, ConsumerOk, Piece, Advance;
    PieceInOrder(s);
    var c := s.consumer;
    ReleasePrefix(s.written, |s.read|, |c.fetched| + c.want);
    Assoc(s.read, c.fetched, Piece(c));
  }

  lemma StoreReadShared(s: State)
    requires Inv(s) && Enabled(s, StoreRead)
    ensures WellFormed(Do(s, StoreRead)) && SharedOk(Do(s, StoreRead))
    ensures Queue(s) == s.consumer.fetched + Piece(s.consumer) + s.written[|Do(s, StoreRead).read|..]
  {
    hide Filled, Holds, HoldsSome, ProducerOk, ConsumerOk, Do, Piece;
    StoreReadMoves(s);
    var n := |s.consumer.fetched| + s.consumer.want;
    HoldsDrop(s.buf, |s.read|, s.written[|s.read|..], n);
    ReleasePrefix(s.written, |s.read|, n);
  }

  /** Moving the boundary between read and unread by n bytes. */
  lemma ReleasePrefix(written: seq<byte>, r: nat, n: nat)
    requires r + n <= |written|
    ensures written[..r] + written[r..r + n] == written[..r + n]
    ensures written[r..][n..] == written[r + n..]
    ensures written[r..] == written[r..r + n] + written[r + n..]
  {}

  lemma StoreReadKeeps(s: State)
    requires Inv(s) && Enabled(s, StoreRead)
    ensures Inv(Do(s, StoreRead))
    ensures Queue(s) == s.consumer.fetched + Piece(s.consumer) + Queue(Do(s, StoreRead))
  {
    StoreReadShared(s);
  }

  lemma LoadReadKeeps(s: State, data: seq<byte>)
    requires Inv(s) && Enabled(s, LoadRead(data))
    ensures Inv(Do(s, LoadRead(data)))
  {
    FilledPositions(|s.buf|, |s.read|, |s.written|);
  }

  lemma LoadWriteKeeps(s: State, len: nat)
    requires Inv(s) && Enabled(s, LoadWrite(len))
    ensures Inv(Do(s, LoadWrite(len)))
  {
    FilledPositions(|s.buf|, |s.read|, |s.written|);
  }

  lemma StepKeeps(s: State, a: Action)
    requires Inv(s) && Enabled(s, a)
    ensures Inv(Do(s, a))
  {
    match a
    case LoadRead(data) => LoadReadKeeps(s, data);
    case CopyIn(k) => CopyInKeeps(s, k);
    case NextChunk(data) => NextChunkKeeps(s, data);
    case StoreWrite => StoreWriteKeeps(s);
    case LoadWrite(len) => LoadWriteKeeps(s, len);
    case CopyOut(k) => CopyOutKeeps(s, k);
    case NextPiece(len) => NextPieceKeeps(s, len);
    case StoreRead => StoreReadKeeps(s);
  }

  // ---- What the protocol guarantees -------------------------------------------------------------

  /**
   Every step is a step of an atomic bounded queue: only the two index stores change it. A write store
   appends the bytes of the call, a read store removes exactly the bytes handed back.
   */
  lemma StepIsQueueStep(s: State, a: Action)
    requires Inv(s) && Enabled(s, a)
    ensures Inv(Do(s, a)) && |Queue(Do(s, a))| < |s.buf|
    ensures a.StoreWrite? ==>
      var p := s.producer; Queue(Do(s, a)) == Queue(s) + (p.staged + p.chunk) && Do(s, a).read == s.read
    ensures a.StoreRead? ==>
      var out := s.consumer.fetched + Piece(s.consumer);
      Queue(s) == out + Queue(Do(s, a)) && Do(s, a).read == s.read + out
    ensures !a.StoreWrite? && !a.StoreRead? ==>
      Queue(Do(s, a)) == Queue(s) && Do(s, a).read == s.read
  {
    StepKeeps(s, a);
    if a.StoreWrite? {
      StoreWriteKeeps(s);
    } else if a.StoreRead? {
      StoreReadKeeps(s);
    }
  }

  /** No single-byte store of the producer touches the slot of a byte that is still unread. */
  lemma NoUnreadByteOverwritten(s: State, k: nat, i: nat)
    requires Inv(s) && Enabled(s, CopyIn(k)) && |s.read| <= i < |s.written|
    ensures CopySlot(|s.buf|, s.producer.at, |s.producer.chunk|, k) != i % |s.buf|
    ensures Do(s, CopyIn(k)).buf[i % |s.buf|] == s.written[i]
  {
    var p := s.producer;
    AdvancePosition(|s.buf|, |s.written| + |p.staged|, k);
    ModDistinct(i, |s.written| + |p.staged| + k, |s.buf|);
    assert s.buf[(|s.read| + (i - |s.read|)) % |s.buf|] == s.written[|s.read|..][i - |s.read|];
  }

  /** Whenever both threads are about to copy a byte, they copy to and from different slots. */
  lemma NoDataRace(s: State, k: nat, j: nat)
    requires Inv(s) && Enabled(s, CopyIn(k)) && Enabled(s, CopyOut(j))
    ensures CopySlot(|s.buf|, s.producer.at, |s.producer.chunk|, k)
         != CopySlot(|s.buf|, s.consumer.at, s.consumer.want, j)
  {
    var pos := |s.read| + |s.consumer.fetched| + j;
    AdvancePosition(|s.buf|, |s.read| + |s.consumer.fetched|, j);
    NoUnreadByteOverwritten(s, k, pos);
  }

  /** A run is legal when every action is enabled where it is taken. */
  ghost predicate Legal(s: State, acts: seq<Action>)
    decreases |acts|
  {
    acts != [] ==> WellFormed(s) && Enabled(s, acts[0]) && Legal(Do(s, acts[0]), acts[1..])
  }

  ghost function Run(s: State, acts: seq<Action>): State
    requires Legal(s, acts)
    decreases |acts|
  {
    if acts == [] then s else Run(Do(s, acts[0]), acts[1..])
  }

  lemma {:induction false} RunKeeps(s: State, acts: seq<Action>)
    requires Inv(s) && Legal(s, acts)
    ensures Inv(Run(s, acts))
    ensures |Run(s, acts).buf| == |s.buf|
    ensures s.read <= Run(s, acts).read && s.written <= Run(s, acts).written
    decreases |acts|
  {
    if acts == [] {
    } else {
      StepKeeps(s, acts[0]);
      RunKeeps(Do(s, acts[0]), acts[1..]);
    }
  }

  /**
   In every interleaving, what has been read is a prefix of what has been written, and the bytes in
   between are exactly the ring's contents between the two published indices.
   */
  lemma EveryInterleavingIsFifo(buf: seq<byte>, acts: seq<Action>)
    requires 0 < |buf| && Legal(Init(buf), acts)
    ensures var s := Run(Init(buf), acts);
      && Inv(s)
      && s.read <= s.written
      && s.written == s.read + Window(s.buf, s.rp, Filled(|s.buf|, s.rp, s.wp))
  {
    hide Run, Legal, Do, Enabled, Filled, Window, ProducerOk, ConsumerOk;
    InitInv(buf);
    RunKeeps(Init(buf), acts);
    var s := Run(Init(buf), acts);
    FilledPositions(|s.buf|, |s.read|, |s.written|);
    var n, w := |s.written| - |s.read|, Window(s.buf, s.rp, Filled(|s.buf|, s.rp, s.wp));
    forall i | 0 <= i < n ensures w[i] == s.written[|s.read|..][i] {
      WindowAt(s.buf, s.rp, n, i);
      AdvancePosition(|s.buf|, |s.read|, i);
    }
    assert w == s.written[|s.read|..];
  }

  /** The rest of a write call that has copied its first k bytes in order. */
  ghost function FinishWrite(k: nat, n: nat): seq<Action>
    requires k <= n
    decreases n - k
  {
    if k == n then [StoreWrite] else [CopyIn(k)] + FinishWrite(k + 1, n)
  }

  lemma {:induction false} FinishWriteRuns(s: State, k: nat)
    requires Inv(s) && s.producer.Writing? && k <= |s.producer.chunk|
    requires forall i :: i in s.producer.done <==> 0 <= i < k
    ensures var acts := FinishWrite(k, |s.producer.chunk|);
      && Legal(s, acts)
      && Inv(Run(s, acts))
      && Queue(Run(s, acts)) == Queue(s) + (s.producer.staged + s.producer.chunk)
    decreases |s.producer.chunk| - k
  {
    if k == |s.producer.chunk| {
      StepIsQueueStep(s, StoreWrite);
      var s' := Do(s, StoreWrite);
      assert Run(s', []) == s' && [StoreWrite][1..] == [];
      assert Run(s, [StoreWrite]) == s';
    } else {
      var s', rest := Do(s, CopyIn(k)), FinishWrite(k + 1, |s.producer.chunk|);
      StepIsQueueStep(s, CopyIn(k));
      FinishWriteRuns(s', k + 1);
      assert ([CopyIn(k)] + rest)[1..] == rest;
      assert Run(s, [CopyIn(k)] + rest) == Run(s', rest);
    }
  }

  /** A fresh snapshot accepts exactly what the abstract queue would. */
  lemma FreshSnapshot(s: State, data: seq<byte>)
    requires Inv(s) && s.producer.ProducerIdle?
    ensures Queue(s) + Do(s, LoadRead(data)).producer.chunk == Push(Queue(s), |s.buf| - 1, data)
  {
    FilledPositions(|s.buf|, |s.read|, |s.written|);
  }

  /** A write call that is not interrupted is a legal run, and does to the queue what `Write` does. */
  lemma UninterruptedWrite(s: State, data: seq<byte>) returns (acts: seq<Action>)
    requires Inv(s) && s.producer.ProducerIdle?
    ensures Legal(s, acts) && Inv(Run(s, acts))
    ensures Queue(Run(s, acts)) == Push(Queue(s), |s.buf| - 1, data)
  {
    StepIsQueueStep(s, LoadRead(data));
    var s' := Do(s, LoadRead(data));
    FinishWriteRuns(s', 0);
    FreshSnapshot(s, data);
    var rest := FinishWrite(0, |s'.producer.chunk|);
    acts := [LoadRead(data)] + rest;
    assert acts[1..] == rest;
    assert [] + s'.producer.chunk == s'.producer.chunk;
  }

  /** The rest of a read call that has copied its first k bytes in order. */
  ghost function FinishRead(k: nat, n: nat): seq<Action>
    requires k <= n
    decreases n - k
  {
    if k == n then [StoreRead] else [CopyOut(k)] + FinishRead(k + 1, n)
  }

  lemma {:induction false} FinishReadRuns(s: State, k: nat)
    requires Inv(s) && s.consumer.Reading? && k <= s.consumer.want
    requires forall i :: i in s.consumer.got <==> 0 <= i < k
    ensures var acts, n := FinishRead(k, s.consumer.want), |s.consumer.fetched| + s.consumer.want;
      && Legal(s, acts) && Inv(Run(s, acts)) && n <= |Queue(s)|
      && Run(s, acts).read == s.read + Queue(s)[..n]
      && Queue(Run(s, acts)) == Queue(s)[n..]
    decreases s.consumer.want - k
  {
    hide WellFormed, SharedOk, ProducerOk, ConsumerOk;
    if k == s.consumer.want {
      LastRead(s);
      var s' := Do(s, StoreRead);
      assert Run(s', []) == s' && [StoreRead][1..] == [];
      assert Run(s, [StoreRead]) == s';
    } else {
      var s', rest := Do(s, CopyOut(k)), FinishRead(k + 1, s.consumer.want);
      StepIsQueueStep(s, CopyOut(k));
      FinishReadRuns(s', k + 1);
      assert ([CopyOut(k)] + rest)[1..] == rest;
      assert Run(s, [CopyOut(k)] + rest) == Run(s', rest);
    }
  }

  lemma LastRead(s: State)
    requires Inv(s) && PieceCopied(s.consumer)
    ensures var n := |s.consumer.fetched| + s.consumer.want;
      && Enabled(s, StoreRead) && Inv(Do(s, StoreRead)) && n <= |Queue(s)|
      && Do(s, StoreRead).read == s.read + Queue(s)[..n]
      && Queue(Do(s, StoreRead)) == Queue(s)[n..]
  {
    StepIsQueueStep(s, StoreRead);
    var out, rest := s.consumer.fetched + Piece(s.consumer), Queue(Do(s, StoreRead));
    assert (out + rest)[..|out|] == out && (out + rest)[|out|..] == rest;
  }

  /** A read call that is not interrupted is a legal run, and returns what `Read` returns. */
  lemma UninterruptedRead(s: State, len: nat) returns (acts: seq<Action>)
    requires Inv(s) && s.consumer.ConsumerIdle?
    ensures Legal(s, acts) && Inv(Run(s, acts))
    ensures var n := Min(len, |Queue(s)|);
      && Run(s, acts).read == s.read + Queue(s)[..n]
      && Queue(Run(s, acts)) == Queue(s)[n..]
  {
    StepIsQueueStep(s, LoadWrite(len));
    FilledPositions(|s.buf|, |s.read|, |s.written|);
    var s' := Do(s, LoadWrite(len));
    FinishReadRuns(s', 0);
    var rest := FinishRead(0, s'.consumer.want);
    acts := [LoadWrite(len)] + rest;
    assert acts[1..] == rest;
  }
}
