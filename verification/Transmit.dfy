/**
 What the transmit path does to a byte stream (src/websocket.c:807-939 and 1573-1587,
 src/io_kqueue.c:316-361): frames are queued in the transmit ring, and the socket takes as much
 of the queue as it likes after each call.
 */
module Transmit {
  import opened Bytes
  import opened RingBuffers
  import opened Frames
  import opened Receive

  /** A frame this client can send. */
  datatype Outgoing =
    | Text(data: seq<byte>)
    | Binary(data: seq<byte>)
    | Pong(data: seq<byte>, key: seq<byte>)
    | Ping

  predicate Sendable(o: Outgoing) {
    (o.Ping? || |o.data| + 14 < TWO_64) && (o.Pong? ==> |o.key| == 4)
  }

  function Encode(o: Outgoing): (s: seq<byte>)
    requires Sendable(o)
    ensures |s| >= 2
  {
    match o
    case Text(data) => EncodeMessage(true, data)
    case Binary(data) => EncodeMessage(false, data)
    case Pong(data, key) => EncodeMasked(OPCODE_PONG, data, key)
    case Ping => PING_FRAME
  }

  /** The frame the peer should see, with its payload as it travels. */
  function Arrives(o: Outgoing): WholeFrame
    requires Sendable(o)
  {
    match o
    case Text(d) => WholeFrame(Frame(1, OPCODE_TEXT, 0, LenType(|d|), |d|, NO_KEY, LenSize(|d|)), d)
    case Binary(d) => WholeFrame(Frame(1, OPCODE_BINARY, 0, LenType(|d|), |d|, NO_KEY, LenSize(|d|)), d)
    case Pong(d, key) =>
      WholeFrame(Frame(1, OPCODE_PONG, 1, LenType(|d|), |d|, key, LenSize(|d|) + 4), Masked(d, key))
    case Ping => WholeFrame(Frame(1, OPCODE_PING, 0, 7, 0, NO_KEY, 2), [])
  }

  ghost predicate AllSendable(os: seq<Outgoing>) { forall i | 0 <= i < |os| :: Sendable(os[i]) }

  function Wire(os: seq<Outgoing>): seq<byte>
    requires AllSendable(os)
  {
    if os == [] then [] else Encode(os[0]) + Wire(os[1..])
  }

  function Arrivals(os: seq<Outgoing>): seq<WholeFrame>
    requires AllSendable(os)
  {
    if os == [] then [] else [Arrives(os[0])] + Arrivals(os[1..])
  }

  // ---- The stream decodes to the frames ---------------------------------------------------------

  lemma EncodedHead(o: Outgoing, t: seq<byte>)
    requires Sendable(o)
    ensures HasFrame(Encode(o) + t) && Head(Encode(o) + t) == Arrives(o) && Tail(Encode(o) + t) == t
  {
    match o
    case Text(d) => MessageRoundTrip(true, d, t);
    case Binary(d) => MessageRoundTrip(false, d, t);
    case Pong(d, key) => MaskedRoundTrip(OPCODE_PONG, d, key, t);
    case Ping => PingRoundTrip(t);
  }

  lemma CutStep(s: seq<byte>)
    requires HasFrame(s)
    ensures Cut(s) == [Head(s)] + Cut(Tail(s)) && Rest(s) == Rest(Tail(s))
  {
    hide ParseFrame, Head, Tail;
  }

  /** A proper prefix of an encoded frame holds no whole frame. */
  lemma NoFrameInPart(o: Outgoing, n: nat)
    requires Sendable(o) && n < |Encode(o)|
    ensures !ParseFrame(Encode(o)[..n]).Parsed?
  {
    hide ParseFrame, Encode;
    var s := Encode(o);
    assert s[..n] + s[n..] == s;
    EncodedParses(o);
    if ParseFrame(s[..n]).Parsed? {
      ParseExtends(s[..n], s[n..]);
      ParsedShape(s[..n]);
    }
  }

  lemma EncodedParses(o: Outgoing)
    requires Sendable(o)
    ensures ParseFrame(Encode(o)).Parsed? && ParseFrame(Encode(o)).frame.Size() == |Encode(o)| < TWO_64
  {
    hide ParseFrame, Encode, Arrives, Tail;
    assert Encode(o) + [] == Encode(o);
    EncodedHead(o, []);
    EncodedSize(o);
  }

  lemma EncodedSize(o: Outgoing)
    requires Sendable(o)
    ensures |Encode(o)| == Arrives(o).frame.Size() < TWO_64
  {}

  /** What this client sends never declares an overflowing length, even cut off anywhere. */
  lemma {:induction false} WireHasNoOverflow(os: seq<Outgoing>, t: seq<byte>)
    requires AllSendable(os) && !ParseFrame(t).Parsed?
    ensures NoOverflow(Wire(os) + t)
  {
    hide ParseFrame, HasFrame, Head, Tail, Encode, Arrives, DeclaresOverflow;
    if os == [] {
      assert Wire(os) + t == t;
    } else {
      var s := Wire(os[1..]) + t;
      Assoc(Encode(os[0]), Wire(os[1..]), t);
      EncodedNoOverflow(os[0], s);
      EncodedHead(os[0], s);
      WireHasNoOverflow(os[1..], t);
    }
  }

  lemma EncodedNoOverflow(o: Outgoing, t: seq<byte>)
    requires Sendable(o)
    ensures ParseFrame(Encode(o) + t).Parsed? && !DeclaresOverflow(Encode(o) + t)
  {
    EncodedHead(o, t);
    EncodedSize(o);
    hide ParseFrame, DeclaresOverflow, Encode, Arrives;
    SizeFromHeader(Encode(o) + t);
  }

  /** A stream that starts with encoded frames is cut into exactly those frames. */
  lemma {:induction false} WireCuts(os: seq<Outgoing>, t: seq<byte>)
    requires AllSendable(os)
    ensures Cut(Wire(os) + t) == Arrivals(os) + Cut(t) && Rest(Wire(os) + t) == Rest(t)
  {
    hide ParseFrame, HasFrame, Head, Tail, Cut, Rest, Encode, Arrives;
    if os == [] {
      assert Wire(os) + t == t;
      assert Arrivals(os) + Cut(t) == Cut(t);
    } else {
      var s := Wire(os[1..]) + t;
      Assoc(Encode(os[0]), Wire(os[1..]), t);
      EncodedHead(os[0], s);
      CutStep(Encode(os[0]) + s);
      WireCuts(os[1..], t);
      Assoc([Arrives(os[0])], Arrivals(os[1..]), Cut(t));
    }
  }

  // ---- Queue and socket ---------------------------------------------------------------------------

  /** The bytes still queued and the bytes the socket has taken. */
  datatype Link = Link(queue: seq<byte>, wire: seq<byte>)
  {
    function Stream(): seq<byte> { wire + queue }
  }

  /** One gathering write: the socket takes at most `accept` of the queued bytes. */
  function Flush(l: Link, accept: nat): (r: Link)
    ensures r.Stream() == l.Stream()
  {
    var k := Min(accept, |l.queue|);
    Assoc(l.wire, l.queue[..k], l.queue[k..]);
    assert l.queue[..k] + l.queue[k..] == l.queue;
    Link(l.queue[k..], l.wire + l.queue[..k])
  }

  /** A flush moves exactly as many bytes as the socket takes; one that takes all leaves nothing queued. */
  lemma FlushMoves(l: Link, accept: nat)
    ensures var r, k := Flush(l, accept), Min(accept, |l.queue|);
      && r.wire == l.wire + l.queue[..k] && r.queue == l.queue[k..]
      && (accept >= |l.queue| ==> r == Link([], l.wire + l.queue))
  {
    assert accept >= |l.queue| ==> l.queue[..|l.queue|] == l.queue;
  }

  predicate Succeeds(l: Link, capacity: nat, o: Outgoing)
    requires Sendable(o) && |l.queue| <= capacity
  {
    |Encode(o)| <= capacity - |l.queue|
  }

  /** One call: what fits is queued; only if all of it fits is the queue flushed. */
  function Send(l: Link, capacity: nat, o: Outgoing, accept: nat): (r: Link)
    requires Sendable(o) && |l.queue| <= capacity
    ensures |r.queue| <= capacity
  {
    var l' := l.(queue := Push(l.queue, capacity, Encode(o)));
    if Succeeds(l, capacity, o) then Flush(l', accept) else l'
  }

  /** A sending call, or a flush on its own. */
  datatype Call = SendFrame(frame: Outgoing, accept: nat) | FlushOnly(accept: nat)

  ghost predicate AllCallsSendable(calls: seq<Call>) {
    forall i | 0 <= i < |calls| && calls[i].SendFrame? :: Sendable(calls[i].frame)
  }

  function Do(l: Link, capacity: nat, c: Call): (r: Link)
    requires |l.queue| <= capacity && (c.SendFrame? ==> Sendable(c.frame))
    ensures |r.queue| <= capacity
  {
    if c.SendFrame? then Send(l, capacity, c.frame, c.accept) else Flush(l, c.accept)
  }

  /** The link after a series of calls, and the frames whose calls returned 0. */
  function SendAll(l: Link, capacity: nat, calls: seq<Call>): (r: Link)
    requires AllCallsSendable(calls) && |l.queue| <= capacity
    ensures |r.queue| <= capacity
    decreases |calls|
  {
    if calls == [] then l else SendAll(Do(l, capacity, calls[0]), capacity, calls[1..])
  }

  function Sent(l: Link, capacity: nat, calls: seq<Call>): (r: seq<Outgoing>)
    requires AllCallsSendable(calls) && |l.queue| <= capacity
    ensures AllSendable(r)
    decreases |calls|
  {
    if calls == [] then [] else
      var rest := Sent(Do(l, capacity, calls[0]), capacity, calls[1..]);
      if calls[0].SendFrame? && Succeeds(l, capacity, calls[0].frame) then [calls[0].frame] + rest else rest
  }

  /** Every failing call found the ring already full, so that it queued no part of its frame. */
  ghost predicate FailuresFoundFull(l: Link, capacity: nat, calls: seq<Call>)
    requires AllCallsSendable(calls) && |l.queue| <= capacity
    decreases |calls|
  {
    calls != [] ==>
      && (calls[0].SendFrame? ==> Succeeds(l, capacity, calls[0].frame) || |l.queue| == capacity)
      && FailuresFoundFull(Do(l, capacity, calls[0]), capacity, calls[1..])
  }

  /** A call appends its frame to the stream if it succeeds, and otherwise the part that filled the ring. */
  lemma SendAppends(l: Link, capacity: nat, o: Outgoing, accept: nat)
    requires Sendable(o) && |l.queue| <= capacity
    ensures Send(l, capacity, o, accept).Stream()
         == l.Stream() + Encode(o)[..Min(|Encode(o)|, capacity - |l.queue|)]
  {
    Assoc(l.wire, l.queue, Encode(o)[..Min(|Encode(o)|, capacity - |l.queue|)]);
  }

  /** The stream grows by at least the successful frames, and by no more iff no part of a failed one was queued. */
  lemma {:induction false} StreamLength(l: Link, capacity: nat, calls: seq<Call>)
    requires AllCallsSendable(calls) && |l.queue| <= capacity
    ensures |SendAll(l, capacity, calls).Stream()| >= |l.Stream()| + |Wire(Sent(l, capacity, calls))|
    ensures |SendAll(l, capacity, calls).Stream()| == |l.Stream()| + |Wire(Sent(l, capacity, calls))|
       <==> FailuresFoundFull(l, capacity, calls)
    decreases |calls|
  {
    hide Encode;
    if calls == [] {
    } else {
      var c := calls[0];
      if c.SendFrame? { SendAppends(l, capacity, c.frame, c.accept); }
      StreamLength(Do(l, capacity, c), capacity, calls[1..]);
    }
  }

  lemma CallAppends(l: Link, capacity: nat, c: Call)
    requires |l.queue| <= capacity
    requires c.SendFrame? ==> Sendable(c.frame) && (Succeeds(l, capacity, c.frame) || |l.queue| == capacity)
    ensures Do(l, capacity, c).Stream() ==
      if c.SendFrame? && Succeeds(l, capacity, c.frame) then l.Stream() + Encode(c.frame) else l.Stream()
  {
    hide Encode;
    if c.SendFrame? {
      SendAppends(l, capacity, c.frame, c.accept);
      hide Send;
    }
  }

  lemma {:induction false} StreamContents(l: Link, capacity: nat, calls: seq<Call>)
    requires AllCallsSendable(calls) && |l.queue| <= capacity && FailuresFoundFull(l, capacity, calls)
    ensures SendAll(l, capacity, calls).Stream() == l.Stream() + Wire(Sent(l, capacity, calls))
    decreases |calls|
  {
    hide Encode, Do, Succeeds;
    if calls == [] {
    } else {
      var c := calls[0];
      var l' := Do(l, capacity, c);
      CallAppends(l, capacity, c);
      StreamContents(l', capacity, calls[1..]);
      if c.SendFrame? && Succeeds(l, capacity, c.frame) {
        Assoc(l.Stream(), Encode(c.frame), Wire(Sent(l', capacity, calls[1..])));
      }
    }
  }

  const IDLE: Link := Link([], [])

  /**
   For every series of calls and every series of partial socket writes, the bytes taken by the socket
   followed by the bytes still queued are exactly the whole frames of the successful calls, in order,
   if and only if every failing call found the ring full.
   */
  lemma TransmitConservation(capacity: nat, calls: seq<Call>)
    requires AllCallsSendable(calls)
    ensures SendAll(IDLE, capacity, calls).Stream() == Wire(Sent(IDLE, capacity, calls))
       <==> FailuresFoundFull(IDLE, capacity, calls)
  {
    StreamLength(IDLE, capacity, calls);
    if FailuresFoundFull(IDLE, capacity, calls) {
      StreamContents(IDLE, capacity, calls);
      var w := Wire(Sent(IDLE, capacity, calls));
      assert IDLE.Stream() + w == w;
    }
  }

  /** The property fails for every frame larger than the ring: one call leaves its cut-off front in the queue. */
  lemma OversizedFrameLeavesPart(capacity: nat, o: Outgoing, accept: nat)
    requires Sendable(o) && 0 < capacity < |Encode(o)|
    ensures var calls := [SendFrame(o, accept)];
      && Sent(IDLE, capacity, calls) == []
      && SendAll(IDLE, capacity, calls).Stream() == Encode(o)[..capacity]
      && SendAll(IDLE, capacity, calls).Stream() != Wire([])
  {
    hide Encode;
    var calls := [SendFrame(o, accept)];
    SendAppends(IDLE, capacity, o, accept);
    assert calls[1..] == [];
    assert IDLE.Stream() == [];
  }

  /** The peer recovers the frames in order; at any moment what it can cut from the wire is a prefix of them. */
  lemma PeerSeesFrames(capacity: nat, calls: seq<Call>)
    requires AllCallsSendable(calls) && FailuresFoundFull(IDLE, capacity, calls)
    ensures var l, os := SendAll(IDLE, capacity, calls), Sent(IDLE, capacity, calls);
      && Cut(l.Stream()) == Arrivals(os) && Rest(l.Stream()) == []
      && Cut(l.wire) <= Arrivals(os)
  {
    hide ParseFrame, Encode, Arrives;
    var l, os := SendAll(IDLE, capacity, calls), Sent(IDLE, capacity, calls);
    TransmitConservation(capacity, calls);
    WireCuts(os, []);
    assert Wire(os) + [] == Wire(os);
    EmptyHasNoFrame();
    CutAppend(l.wire, l.queue);
  }

  // ---- Answering pings ----------------------------------------------------------------------------------

  /** What chance decides about one pong: its masking key, and how much the socket takes. */
  type Key = k: seq<byte> | |k| == 4 witness NO_KEY

  datatype PongChoice = PongChoice(key: Key, accept: nat)

  /** The link after answering the pings with these payloads, where `n` were answered before. */
  function Answer(l: Link, capacity: nat, choices: nat -> PongChoice, n: nat, ps: seq<seq<byte>>): (r: Link)
    requires |l.queue| <= capacity
    ensures |r.queue| <= capacity
    decreases |ps|
  {
    if ps == [] then l else
      var o := Pong(ps[0], choices(n).key);
      var l' := if Sendable(o) then Send(l, capacity, o, choices(n).accept) else l;
      Answer(l', capacity, choices, n + 1, ps[1..])
  }

  lemma {:induction false} AnswerAppend(
    l: Link, capacity: nat, choices: nat -> PongChoice, n: nat, a: seq<seq<byte>>, b: seq<seq<byte>>)
    requires |l.queue| <= capacity
    ensures Answer(l, capacity, choices, n, a + b)
         == Answer(Answer(l, capacity, choices, n, a), capacity, choices, n + |a|, b)
    decreases |a|
  {
    hide Send;
    Unfold(a, b);
    if a == [] {
    } else {
      var o := Pong(a[0], choices(n).key);
      var l' := if Sendable(o) then Send(l, capacity, o, choices(n).accept) else l;
      AnswerAppend(l', capacity, choices, n + 1, a[1..], b);
    }
  }

  /** The link has moved from l to l' by exactly the pongs logged between `before` and `after`. */
  ghost predicate Replied(
    capacity: nat, choices: nat -> PongChoice, l: Link, before: seq<Effect>, after: seq<Effect>, l': Link)
  {
    && |l.queue| <= capacity && before <= after
    && l' == Answer(l, capacity, choices, |Pongs(before)|, Pongs(after[|before|..]))
  }

  lemma RepliedNothing(capacity: nat, choices: nat -> PongChoice, l: Link, log: seq<Effect>)
    requires |l.queue| <= capacity
    ensures Replied(capacity, choices, l, log, log, l)
  {
    assert log[|log|..] == [];
  }

  lemma RepliedOnce(capacity: nat, choices: nat -> PongChoice, l: Link, log: seq<Effect>, e: Effect)
    requires |l.queue| <= capacity
    requires e.SendPong? ==> Sendable(Pong(e.payload, choices(|Pongs(log)|).key))
    ensures Replied(capacity, choices, l, log, log + [e],
      if e.SendPong? then
        var choice := choices(|Pongs(log)|); Send(l, capacity, Pong(e.payload, choice.key), choice.accept)
      else l)
  {
    hide Send;
    var es := (log + [e])[|log|..];
    assert es == [e] && es[1..] == [];
    assert Pongs(es) == Ponged(e) + Pongs([]);
    if e.SendPong? {
      var ps, n := [e.payload], |Pongs(log)|;
      assert Pongs(es) == ps && ps[1..] == [];
      var l' := Send(l, capacity, Pong(e.payload, choices(n).key), choices(n).accept);
      assert Answer(l, capacity, choices, n, ps) == Answer(l', capacity, choices, n + 1, []);
    }
  }

  lemma RepliedFromStart(capacity: nat, choices: nat -> PongChoice, l: Link, log: seq<Effect>, l': Link)
    requires Replied(capacity, choices, l, [], log, l')
    ensures |l.queue| <= capacity && l' == Answer(l, capacity, choices, 0, Pongs(log))
  {
    assert log[0..] == log;
  }

  lemma RepliedThen(
    capacity: nat, choices: nat -> PongChoice,
    l: Link, a: seq<Effect>, l': Link, b: seq<Effect>, l'': Link, c: seq<Effect>)
    requires Replied(capacity, choices, l, a, b, l') && Replied(capacity, choices, l', b, c, l'')
    ensures Replied(capacity, choices, l, a, c, l'')
  {
    hide Answer, Pongs;
    assert c[|a|..] == b[|a|..] + c[|b|..];
    assert b == a + b[|a|..];
    PongsAppend(a, b[|a|..]);
    PongsAppend(b[|a|..], c[|b|..]);
    AnswerAppend(l, capacity, choices, |Pongs(a)|, Pongs(b[|a|..]), Pongs(c[|b|..]));
  }

  // ---- The client's own calls -------------------------------------------------------------------------

  /** The client itself flushes only after a successful call. */
  ghost predicate ClientCalls(calls: seq<Call>) {
    AllCallsSendable(calls) && forall i | 0 <= i < |calls| :: calls[i].SendFrame?
  }

  /** A full ring is final: every later call fails, nothing more is queued and nothing reaches the socket. */
  lemma {:induction false} FullIsFinal(l: Link, capacity: nat, calls: seq<Call>)
    requires ClientCalls(calls) && |l.queue| == capacity
    ensures SendAll(l, capacity, calls) == l && Sent(l, capacity, calls) == []
    decreases |calls|
  {
    hide Encode;
    if calls == [] {
    } else {
      assert Do(l, capacity, calls[0]).queue == l.queue;
      FullIsFinal(l, capacity, calls[1..]);
    }
  }

  /**
   Whatever succeeds or fails, the stream of the client's own calls is the whole frames of the
   successful ones followed by at most one cut-off frame, so the peer cuts exactly the former from it.
   */
  lemma {:induction false} ClientStream(l: Link, capacity: nat, calls: seq<Call>) returns (part: seq<byte>)
    requires ClientCalls(calls) && |l.queue| <= capacity
    ensures SendAll(l, capacity, calls).Stream() == l.Stream() + Wire(Sent(l, capacity, calls)) + part
    ensures !ParseFrame(part).Parsed?
    ensures part != [] ==> |SendAll(l, capacity, calls).queue| == capacity
    decreases |calls|
  {
    hide Encode, ParseFrame, HasFrame, Cut, Flush;
    TooShortIff([]);
    if calls == [] {
      part := [];
    } else {
      var c, l' := calls[0], Do(l, capacity, calls[0]);
      SendAppends(l, capacity, c.frame, c.accept);
      if Succeeds(l, capacity, c.frame) {
        part := ClientStream(l', capacity, calls[1..]);
        var w := Wire(Sent(l', capacity, calls[1..]));
        Assoc(l.Stream(), Encode(c.frame), w);
        assert Encode(c.frame)[..|Encode(c.frame)|] == Encode(c.frame);
      } else {
        var n := capacity - |l.queue|;
        part := Encode(c.frame)[..n];
        NoFrameInPart(c.frame, n);
        FullIsFinal(l', capacity, calls[1..]);
        assert l.Stream() + [] == l.Stream();
      }
    }
  }

  /**
   At every moment the peer can cut from what follows the bytes of `l` only frames that were sent, in order.
   What l held before, such as the request of the handshake, need not be frames.
   */
  lemma PeerSeesAfter(l: Link, capacity: nat, calls: seq<Call>)
    requires ClientCalls(calls) && |l.queue| <= capacity
    ensures var l', os, n := SendAll(l, capacity, calls), Sent(l, capacity, calls), |l.Stream()|;
      && l.Stream() <= l'.Stream() && Cut(l'.Stream()[n..]) == Arrivals(os)
      && (n <= |l'.wire| ==> Cut(l'.wire[n..]) <= Arrivals(os) && NoOverflow(l'.wire[n..]))
  {
    hide ParseFrame, Encode, Arrives, Cut, Rest, SendAll, Sent, NoOverflow;
    var l', os, n := SendAll(l, capacity, calls), Sent(l, capacity, calls), |l.Stream()|;
    var part := ClientStream(l, capacity, calls);
    Assoc(l.Stream(), Wire(os), part);
    var sent := Wire(os) + part;
    assert l'.Stream()[n..] == sent;
    WireCuts(os, part);
    NothingToCut(part);
    WireHasNoOverflow(os, part);
    assert Arrivals(os) + [] == Arrivals(os);
    if n <= |l'.wire| {
      assert l'.wire[n..] + l'.queue == sent;
      NoOverflowSplits(l'.wire[n..], l'.queue);
      CutAppend(l'.wire[n..], l'.queue);
    }
  }

  lemma PeerSeesOnlySentFrames(capacity: nat, calls: seq<Call>)
    requires ClientCalls(calls)
    ensures var l, os := SendAll(IDLE, capacity, calls), Sent(IDLE, capacity, calls);
      && Cut(l.Stream()) == Arrivals(os)
      && Cut(l.wire) <= Arrivals(os)
      && NoOverflow(l.wire)
  {
    hide ParseFrame, Encode, Arrives, Cut, Rest, SendAll, Sent, NoOverflow;
    var l := SendAll(IDLE, capacity, calls);
    PeerSeesAfter(IDLE, capacity, calls);
    assert l.Stream()[0..] == l.Stream() && l.wire[0..] == l.wire;
  }

  /** The payloads a receiver hands to its callback for these frames. */
  function Bodies(os: seq<Outgoing>): seq<seq<byte>> {
    if os == [] then [] else
      (if os[0].Text? || os[0].Binary? then [os[0].data] else []) + Bodies(os[1..])
  }

  lemma {:induction false} ArrivalsDeliver(os: seq<Outgoing>)
    requires AllSendable(os)
    ensures Messages(Arrivals(os)) == Bodies(os)
    ensures !HasClose(Arrivals(os))
  {
    if os == [] {
    } else {
      ArrivalsDeliver(os[1..]);
      CloseInPart([Arrives(os[0])], Arrivals(os[1..]));
      MessagesAppend([Arrives(os[0])], Arrivals(os[1..]));
      assert Messages([Arrives(os[0])]) == Message(Arrives(os[0])) + Messages([Arrives(os[0])][1..]);
    }
  }

  /**
   End to end: whatever the client's calls, partial socket writes and failures, and however the bytes
   that reached the peer are cut into reads, a peer with this receive path is handed exactly
   the leading messages sent; all of them once the queue has drained.
   */
  lemma EndToEndAfter(l: Link, capacity: nat, calls: seq<Call>, chunks: seq<seq<byte>>)
    requires ClientCalls(calls) && |l.queue| <= capacity
    requires var wire := SendAll(l, capacity, calls).wire;
      |l.Stream()| <= |wire| && Concat(chunks) == wire[|l.Stream()|..]
    ensures var l', os := SendAll(l, capacity, calls), Sent(l, capacity, calls);
      && Payloads(FeedAllEffects(OPEN, chunks)) <= Bodies(os)
      && (l'.queue == [] ==> Payloads(FeedAllEffects(OPEN, chunks)) == Bodies(os))
  {
    hide ParseFrame, Encode, Arrives, Cut, Rest, SendAll, Sent, FeedAllEffects, Payloads, Messages, Wire, Bodies;
    var l', os, n := SendAll(l, capacity, calls), Sent(l, capacity, calls), |l.Stream()|;
    PeerSeesAfter(l, capacity, calls);
    ArrivalsDeliver(os);
    AnyChunking(chunks);
    var ws := Cut(l'.wire[n..]);
    var later := Arrivals(os)[|ws|..];
    assert Arrivals(os) == ws + later;
    CloseInPart(ws, later);
    MessagesAppend(ws, later);
    assert l'.queue == [] ==> l'.Stream() == l'.wire;
  }

  lemma EndToEnd(capacity: nat, calls: seq<Call>, chunks: seq<seq<byte>>)
    requires ClientCalls(calls) && Concat(chunks) == SendAll(IDLE, capacity, calls).wire
    ensures var l, os := SendAll(IDLE, capacity, calls), Sent(IDLE, capacity, calls);
      && Payloads(FeedAllEffects(OPEN, chunks)) <= Bodies(os)
      && (l.queue == [] ==> Payloads(FeedAllEffects(OPEN, chunks)) == Bodies(os))
  {
    hide SendAll, Sent, FeedAllEffects, Payloads, Bodies, Encode;
    var wire := SendAll(IDLE, capacity, calls).wire;
    assert wire[0..] == wire;
    EndToEndAfter(IDLE, capacity, calls, chunks);
  }

  // ---- Series of calls ------------------------------------------------------------------------------------

  lemma {:induction false} SendAllAppend(l: Link, capacity: nat, a: seq<Call>, b: seq<Call>)
    requires ClientCalls(a) && ClientCalls(b) && |l.queue| <= capacity
    ensures ClientCalls(a + b)
    ensures SendAll(l, capacity, a + b) == SendAll(SendAll(l, capacity, a), capacity, b)
    ensures Sent(l, capacity, a + b) == Sent(l, capacity, a) + Sent(SendAll(l, capacity, a), capacity, b)
    decreases |a|
  {
    hide Do, Succeeds, Encode;
    Unfold(a, b);
    if a == [] {
    } else {
      SendAllAppend(Do(l, capacity, a[0]), capacity, a[1..], b);
    }
  }

  /** What one call moves: after a success the socket takes what it accepts of all that is queued, otherwise nothing. */
  lemma SendMoves(l: Link, capacity: nat, o: Outgoing, accept: nat)
    requires Sendable(o) && |l.queue| <= capacity
    ensures var r, all := Send(l, capacity, o, accept), l.queue + Encode(o);
      if |all| <= capacity then
        r.wire == l.wire + all[..Min(accept, |all|)] && r.queue == all[Min(accept, |all|)..]
      else
        r.wire == l.wire && r.queue == all[..capacity]
  {
    hide Encode;
    var e := Encode(o);
    FlushMoves(l.(queue := Push(l.queue, capacity, e)), accept);
    assert |l.queue + e| <= capacity ==> e[..|e|] == e;
    assert |l.queue + e| > capacity ==> (l.queue + e)[..capacity] == l.queue + e[..capacity - |l.queue|];
  }

  /** Every call finds room, and the socket takes all that is queued. */
  ghost predicate Unhindered(capacity: nat, calls: seq<Call>)
    requires ClientCalls(calls)
  {
    forall i | 0 <= i < |calls| :: |Encode(calls[i].frame)| <= Min(capacity, calls[i].accept)
  }

  function FramesOf(calls: seq<Call>): seq<Outgoing> {
    if calls == [] then [] else (if calls[0].SendFrame? then [calls[0].frame] else []) + FramesOf(calls[1..])
  }

  /** Then every call succeeds, and all its bytes are on the wire when it returns. */
  lemma {:induction false} PromptWire(l: Link, capacity: nat, calls: seq<Call>)
    requires ClientCalls(calls) && Unhindered(capacity, calls) && l.queue == []
    ensures Sent(l, capacity, calls) == FramesOf(calls)
    ensures SendAll(l, capacity, calls) == Link([], l.wire + Wire(Sent(l, capacity, calls)))
    decreases |calls|
  {
    hide Encode;
    if calls == [] {
      assert l.wire + [] == l.wire;
    } else {
      var c := calls[0];
      var e := Encode(c.frame);
      SendMoves(l, capacity, c.frame, c.accept);
      assert l.queue + e == e && e[..|e|] == e;
      var l' := Do(l, capacity, c);
      hide Send;
      assert l' == Link([], l.wire + e);
      PromptWire(l', capacity, calls[1..]);
      Assoc(l.wire, e, Wire(Sent(l', capacity, calls[1..])));
    }
  }

  lemma {:induction false} BodiesAppend(a: seq<Outgoing>, b: seq<Outgoing>)
    ensures Bodies(a + b) == Bodies(a) + Bodies(b)
  {
    Unfold(a, b);
    if a == [] {
    } else {
      BodiesAppend(a[1..], b);
    }
  }

  /** The calls that answer pings with these payloads. */
  function PongCalls(choices: nat -> PongChoice, n: nat, ps: seq<seq<byte>>): seq<Call>
    decreases |ps|
  {
    if ps == [] then [] else
      var o := Pong(ps[0], choices(n).key);
      (if Sendable(o) then [SendFrame(o, choices(n).accept)] else []) + PongCalls(choices, n + 1, ps[1..])
  }

  /** Answering pings is a series of sends that holds no message. */
  lemma {:induction false} AnswerIsSends(
    l: Link, capacity: nat, choices: nat -> PongChoice, n: nat, ps: seq<seq<byte>>)
    requires |l.queue| <= capacity
    ensures var calls := PongCalls(choices, n, ps);
      && ClientCalls(calls)
      && Answer(l, capacity, choices, n, ps) == SendAll(l, capacity, calls)
      && Bodies(Sent(l, capacity, calls)) == []
    decreases |ps|
  {
    hide Encode, Send, Succeeds;
    if ps == [] {
    } else {
      var o, rest := Pong(ps[0], choices(n).key), PongCalls(choices, n + 1, ps[1..]);
      if Sendable(o) {
        var c := SendFrame(o, choices(n).accept);
        var l' := Do(l, capacity, c);
        AnswerIsSends(l', capacity, choices, n + 1, ps[1..]);
        assert ([c] + rest)[0] == c && ([c] + rest)[1..] == rest;
      } else {
        AnswerIsSends(l, capacity, choices, n + 1, ps[1..]);
        assert [] + rest == rest;
      }
    }
  }
}
