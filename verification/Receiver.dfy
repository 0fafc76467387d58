/**
 The receive path as it runs (src/websocket.c:464-580, 989-999 and 1118-1131): frames are parsed where
 they lie in the ring, unmasked in place, handled, and released by one advance of the read index.

 The parser gets one pointer and a length, so it needs the unread bytes not to cross the end of
 the array; `Linear` states that.
 */
module Receivers {
  import opened Bytes
  import opened RingBuffers
  import opened Frames
  import opened Receive
  import opened Regions
  import opened Transmit
  import opened Transmitters

  /** XORs n bytes of the array with the rotating key. */
  method Unmask(a: array<byte>, at: nat, n: nat, key: seq<byte>)
    requires at + n <= a.Length && |key| == 4
    modifies a
    ensures a[..] == old(a[..at]) + Masked(old(a[at..at + n]), key) + old(a[at + n..])
  {
    var i := 0;
    while i < n
      invariant i <= n
      invariant forall k | 0 <= k < i :: a[at + k] == old(a[at + k]) ^ key[k % 4]
      invariant forall k | 0 <= k < at || at + i <= k < a.Length :: a[k] == old(a[k])
    {
      a[at + i] := a[at + i] ^ key[i % 4];
      i := i + 1;
    }
  }

  class Receiver {
    const rx: RingBuffer
    const out: Transmitter
    /** The keys and socket writes chance will choose for the pongs. */
    const choices: nat -> PongChoice
    /** The state of the connection. */
    var state: WsState
    var messagesReceived: nat
    var bytesReceived: nat
    var frameParseErrors: nat
    var pongsTried: nat
    /** What the handled frames caused, in order. */
    var log: seq<Effect>

    /** The rings are separate. The counters are the number and the total size of the delivered payloads. */
    ghost predicate Valid()
      reads this, rx, out, out.tx
    {
      && rx.Valid() && rx.buf.Length + 14 < TWO_64
      && out.Valid() && out.tx != rx && out.tx.buf != rx.buf
      && messagesReceived == |Payloads(log)|
      && bytesReceived == |Concat(Payloads(log))|
      && pongsTried == |Pongs(log)|
    }

    ghost function Now(): Snap
      requires Valid()
      reads this, rx, out, out.tx, out.tx.buf
    {
      Snap(state, log, out.View())
    }

    /** Handling ws has led here from the snapshot a. */
    ghost predicate HandledSince(a: Snap, ws: seq<WholeFrame>)
      requires Valid()
      reads this, rx, out, out.tx, out.tx.buf
    {
      Reaches(out.Capacity(), choices, a, ws, Now())
    }

    /** The unread bytes do not cross the end of the array. */
    ghost predicate Linear()
      requires rx.Valid()
      reads this, rx
    {
      rx.readPtr + Filled(rx.buf.Length, rx.readPtr, rx.writePtr) <= rx.buf.Length
    }

    constructor (ring: RingBuffer, transmitter: Transmitter, chance: nat -> PongChoice, initial: WsState)
      requires ring.Valid() && ring.buf.Length + 14 < TWO_64
      requires transmitter.Valid() && transmitter.tx != ring && transmitter.tx.buf != ring.buf
      ensures Valid() && rx == ring && out == transmitter && choices == chance
      ensures state == initial && log == [] && frameParseErrors == 0
    {
      rx, out, choices, state, log := ring, transmitter, chance, initial, [];
      messagesReceived, bytesReceived, frameParseErrors, pongsTried := 0, 0, 0, 0;
    }

    /** Handles one whole frame whose payload lies at `at`. */
    method HandleFrame(f: Frame, at: nat)
      requires Valid() && at + f.payloadLen <= rx.buf.Length && |f.key| == 4
      modifies this, rx.buf, out`wire, out.tx, out.tx.buf
      ensures Valid() && frameParseErrors == old(frameParseErrors)
      ensures var w := WholeFrame(f, old(rx.buf[at..at + f.payloadLen]));
        && HandledSince(old(Now()), [w])
        && rx.buf[..] == old(rx.buf[..at]) + w.Body() + old(rx.buf[at + f.payloadLen..])
    {
      hide Payloads, Pongs, Concat, Masked, Replied, Send, Reaches;
      ghost var w, before := WholeFrame(f, rx.buf[at..at + f.payloadLen]), Now();
      CountersFollow(log, EffectOf(state, w));
      RepliedNothing(out.Capacity(), choices, out.View(), log);
      if f.opcode == OPCODE_TEXT || f.opcode == OPCODE_BINARY {
        if f.mask != 0 {
          Unmask(rx.buf, at, f.payloadLen, f.key);
        }
        RepliedOnce(out.Capacity(), choices, out.View(), log, Deliver(w.Body()));
        messagesReceived := messagesReceived + 1;
        bytesReceived := bytesReceived + f.payloadLen;
        log := log + [Deliver(rx.buf[at..at + f.payloadLen])];
      } else if f.opcode == OPCODE_PING {
        if f.mask != 0 {
          Unmask(rx.buf, at, f.payloadLen, f.key);
        }
        AnswerPing(rx.buf[at..at + f.payloadLen]);
      } else if f.opcode == OPCODE_PONG {
        RepliedOnce(out.Capacity(), choices, out.View(), log, NotePong);
        log := log + [NotePong];
      } else if f.opcode == OPCODE_CLOSE {
        RepliedOnce(out.Capacity(), choices, out.View(), log, Shut);
        state := Closing;
        log := log + [Shut];
      }
      ReachesOne(out.Capacity(), choices, before, w, Now());
    }

    /** Sends the pong for a ping; the sender itself refuses when the connection is not open. */
    method AnswerPing(payload: seq<byte>)
      requires Valid() && |payload| <= rx.buf.Length
      modifies this`log, this`pongsTried, out`wire, out.tx, out.tx.buf
      ensures Valid()
      ensures log == old(log) + (if state == Connected then [SendPong(payload)] else [])
      ensures Replied(out.Capacity(), choices, old(out.View()), old(log), log, out.View())
    {
      hide Payloads, Pongs, Concat, Replied, Send;
      var choice := choices(pongsTried);
      CountersFollow(log, [SendPong(payload)]);
      RepliedNothing(out.Capacity(), choices, out.View(), log);
      RepliedOnce(out.Capacity(), choices, out.View(), log, SendPong(payload));
      var r := out.SendPong(state, payload, choice.key, choice.accept);
      if state == Connected {
        pongsTried := pongsTried + 1;
        log := log + [SendPong(payload)];
      }
    }

    /** Handles the frame at the head of s, where the unread region reads done + s. */
    method HandleHead(
      frame: Frame, rp: nat, offset: nat, ghost b0: seq<byte>, ghost done: seq<byte>, ghost s: seq<byte>)
      requires Valid() && HasFrame(s) && frame == ParseFrame(s).frame && |done| == offset
      requires |b0| == rx.buf.Length && rp + |done| + |s| <= |b0| && rx.buf[..] == Splice(b0, rp, done + s)
      modifies this, rx.buf, out`wire, out.tx, out.tx.buf
      ensures Valid() && frameParseErrors == old(frameParseErrors)
      ensures HandledSince(old(Now()), [Head(s)])
      ensures rx.buf[..] == Splice(b0, rp, done + Front(s) + Tail(s))
    {
      hide ParseFrame, HasFrame, Splice, Front, Tail, Reaches, Payloads, Pongs, Concat;
      ParserAnswers(s);
      SpliceFrame(b0, rp, done, s);
      HandleFrame(frame, rp + offset + frame.headerSize);
    }

    /** The same inside the parse loop, where `handled` has been handled of the region q, which now reads done first. */
    method HandleNext(
      frame: Frame, rp: nat, total: nat, ghost b0: seq<byte>, ghost q: seq<byte>, ghost start: Snap,
      ghost handled: seq<WholeFrame>, ghost done: seq<byte>)
      returns (ghost handled': seq<WholeFrame>, ghost done': seq<byte>)
      requires Valid() && Progress(q, handled, done, total) && HandledSince(start, handled)
      requires |handled| < MAX_PARSE_ATTEMPTS && HasFrame(q[total..]) && frame == ParseFrame(q[total..]).frame
      requires |b0| == rx.buf.Length && rp + |q| <= |b0| && rx.buf[..] == Splice(b0, rp, done + q[total..])
      modifies this, rx.buf, out`wire, out.tx, out.tx.buf
      ensures Valid() && Progress(q, handled', done', total + frame.Size()) && HandledSince(start, handled')
      ensures |done'| == total + frame.Size() <= |q|
      ensures |handled'| == |handled| + 1 && frameParseErrors == old(frameParseErrors)
      ensures rx.buf[..] == Splice(b0, rp, done' + q[total + frame.Size()..])
    {
      hide ParseFrame, Splice, Head, Tail, Front, Reaches, Take, Consumed, Image, Payloads, Pongs, Concat, HasFrame,
        NoOverflow;
      ghost var before, s := Now(), q[total..];
      ParserAnswers(s);
      HandleHead(frame, rp, total, b0, done, s);
      ReachesThen(out.Capacity(), choices, start, handled, before, [Head(s)], Now());
      ProgressStep(q, handled, done, total);
      assert q[total + frame.Size()..] == s[frame.Size()..];
      handled', done' := handled + [Head(s)], done + Front(s);
    }

    /** The parse loop over the linear region of `len` bytes at rp; returns the bytes of the frames it handled. */
    method ParseLoop(rp: nat, len: nat, ghost q: seq<byte>) returns (total: nat)
      requires Valid() && rp + len <= rx.buf.Length && q == rx.buf[rp..rp + len] && NoOverflow(q)
      modifies this, rx.buf, out`wire, out.tx, out.tx.buf
      ensures Valid() && HandledSince(old(Now()), Take(q, MAX_PARSE_ATTEMPTS))
      ensures total == Consumed(q, MAX_PARSE_ATTEMPTS)
      ensures rx.buf[..] == Splice(old(rx.buf[..]), rp, Image(q, MAX_PARSE_ATTEMPTS))
      ensures frameParseErrors == old(frameParseErrors) + PassErrors(q)
      ensures NoOverflow(q[total..])
    {
      hide ParseFrame, HasFrame, NoOverflow, Progress, Splice, Head, Tail, Front, Reaches, Take, Consumed, Image,
        Payloads, Pongs, Concat;
      ghost var b0, start, errs0 := rx.buf[..], Now(), frameParseErrors;
      ReachesNothing(out.Capacity(), choices, start);
      assert [] + q[0..] == q;
      SpliceOwn(b0, rp, len);
      ProgressStart(q);
      total := 0;
      var offset: nat, attempts: nat := 0, 0;
      ghost var handled: seq<WholeFrame>, done: seq<byte> := [], [];
      while offset < len && attempts < MAX_PARSE_ATTEMPTS
        invariant |done| == total <= |q| && |handled| <= MAX_PARSE_ATTEMPTS
        invariant Valid() && Progress(q, handled, done, total) && HandledSince(start, handled)
        invariant attempts == |handled| + offset - total
        invariant offset != total ==> offset == len == total + 1 && |handled| < MAX_PARSE_ATTEMPTS
        invariant offset != total ==> !HasFrame(q[total..])
        invariant rx.buf[..] == Splice(b0, rp, done + q[total..])
        invariant frameParseErrors == errs0 + offset - total
      {
        attempts := attempts + 1;
        ProgressBounds(q, handled, done, total);
        SpliceReads(b0, rp, done, q[total..]);
        var s := rx.buf[rp + offset..rp + len];
        assert s == q[total..];
        ParserAnswers(s);
        var result := ParseFrame(s);
        if result == NeedMore {
          break;
        }
        if !result.Parsed? {
          frameParseErrors := frameParseErrors + 1;
          offset := offset + 1;
          continue;
        }
        var frame := result.frame;
        handled, done := HandleNext(frame, rp, total, b0, q, start, handled, done);
        offset := offset + frame.Size();
        total := total + frame.Size();
      }
      ProgressBounds(q, handled, done, total);
      ParserAnswers(q[total..]);
      ProgressEnd(q, handled, done, total);
    }

    /** Handles the whole frames at the front of the unread bytes, at most 1000 of them, and releases them. */
    method ProcessFrames()
      requires Valid() && Linear() && NoOverflow(rx.Contents())
      modifies this, rx`readPtr, rx.buf, out`wire, out.tx, out.tx.buf
      ensures Valid() && Linear() && NoOverflow(rx.Contents())
      ensures var q, n := old(rx.Contents()), MAX_PARSE_ATTEMPTS;
        && HandledSince(old(Now()), Take(q, n))
        && rx.readPtr == Advance(rx.buf.Length, old(rx.readPtr), Consumed(q, n))
        && rx.Contents() == q[Consumed(q, n)..]
        && rx.buf[..] == Splice(old(rx.buf[..]), old(rx.readPtr), Image(q, n))
        && frameParseErrors == old(frameParseErrors) + PassErrors(q)
    {
      hide ParseFrame, HasFrame, Reaches, Take, Consumed, Image, NoOverflow, Payloads, Pongs, Concat, Window, Splice;
      var view := ReadView(rx.buf.Length, rx.readPtr, rx.writePtr);
      var rp: nat, len: nat := view.0, view.1;
      ghost var q := rx.Contents();
      LinearView(rx.buf[..], rp, rx.writePtr);
      if len == 0 {
        EmptyRegion(rx.buf[..], rp, q);
        ReachesNothing(out.Capacity(), choices, Now());
        return;
      }
      ghost var b0 := rx.buf[..];
      var total := ParseLoop(rp, len, q);
      ReleaseFront(b0, rp, rx.writePtr, q);
      if total > 0 {
        rx.readPtr := Advance(rx.buf.Length, rp, total);
      }
    }

    /** One pass of the drain: progress on q, of which ws has been handled since `start` at read index rp0. */
    method DrainPass(ghost start: Snap, ghost rp0: nat, ghost q: seq<byte>, ghost ws: seq<WholeFrame>)
      returns (moved: bool, ghost us: seq<WholeFrame>)
      requires Valid() && Linear() && NoOverflow(rx.Contents())
      requires rp0 < rx.buf.Length && |rx.Contents()| <= |q| < rx.buf.Length
      requires rx.readPtr == Advance(rx.buf.Length, rp0, |q| - |rx.Contents()|)
      requires HandledSince(start, ws) && Draining(q, ws, rx.Contents())
      modifies this, rx`readPtr, rx.buf, out`wire, out.tx, out.tx.buf
      ensures Valid() && Linear() && NoOverflow(rx.Contents())
      ensures HandledSince(start, us) && Draining(q, us, rx.Contents())
      ensures |rx.Contents()| <= |q| && rx.readPtr == Advance(rx.buf.Length, rp0, |q| - |rx.Contents()|)
      ensures frameParseErrors == old(frameParseErrors) + PassErrors(old(rx.Contents()))
      ensures rx.Contents() == old(rx.Contents())[Consumed(old(rx.Contents()), MAX_PARSE_ATTEMPTS)..]
      ensures moved <==> Consumed(old(rx.Contents()), MAX_PARSE_ATTEMPTS) != 0
    {
      hide ParseFrame, HasFrame, Reaches, Take, Consumed, Image, NoOverflow, Draining, PassErrors,
        Payloads, Pongs, Concat, Splice, Window;
      ghost var rest, before := rx.Contents(), Now();
      DrainStep(q, ws, rest);
      var rp := rx.readPtr;
      ProcessFrames();
      moved := rx.readPtr != rp;
      us := ws + Take(rest, MAX_PARSE_ATTEMPTS);
      ReachesThen(out.Capacity(), choices, start, ws, before, Take(rest, MAX_PARSE_ATTEMPTS), Now());
    }

    /** The drain: process until the read index no longer moves. */
    method Drain()
      requires Valid() && Linear() && NoOverflow(rx.Contents())
      modifies this, rx`readPtr, rx.buf, out`wire, out.tx, out.tx.buf
      ensures Valid() && Linear() && NoOverflow(rx.Contents())
      ensures var q := old(rx.Contents());
        && HandledSince(old(Now()), Cut(q))
        && rx.Contents() == Rest(q) && !HasFrame(rx.Contents()) && |Rest(q)| <= |q|
        && rx.readPtr == Advance(rx.buf.Length, old(rx.readPtr), |q| - |Rest(q)|)
        && frameParseErrors == old(frameParseErrors) + DrainErrors(q)
    {
      hide ParseFrame, HasFrame, Reaches, Take, Consumed, Image, NoOverflow, Draining, PassErrors,
        Payloads, Pongs, Concat, Splice, Window, Cut, Rest;
      ghost var q, start, rp0, errs0 := rx.Contents(), Now(), rx.readPtr, frameParseErrors;
      DrainStart(q);
      ReachesNothing(out.Capacity(), choices, start);
      var moved;
      ghost var ws;
      moved, ws := DrainPass(start, rp0, q, []);
      DrainErrorsSplit(q);
      moved := true;
      while moved
        invariant Valid() && Linear() && NoOverflow(rx.Contents())
        invariant HandledSince(start, ws) && Draining(q, ws, rx.Contents())
        invariant |rx.Contents()| <= |q| && rx.readPtr == Advance(rx.buf.Length, rp0, |q| - |rx.Contents()|)
        invariant frameParseErrors + (if moved then LoopErrors(rx.Contents()) else 0) == errs0 + DrainErrors(q)
        invariant !moved ==> !HasFrame(rx.Contents())
        decreases |rx.Contents()|, moved
      {
        ghost var rest := rx.Contents();
        LoopErrorsSplit(rest);
        moved, ws := DrainPass(start, rp0, q, ws);
      }
      DrainEnd(q, ws, rx.Contents());
    }

    /** One read event: the bytes are committed to the ring and, on an open connection, drained. */
    method OnReadEvent(data: seq<byte>)
      requires Valid() && Linear()
      requires rx.readPtr + |rx.Contents()| + |data| <= rx.buf.Length
      requires |rx.Contents()| + |data| < rx.buf.Length
      requires state == Connected ==> NoOverflow(rx.Contents() + data)
      modifies this, rx, rx.buf, out`wire, out.tx, out.tx.buf
      ensures Valid() && Linear() && (old(state) == Connected ==> NoOverflow(rx.Contents()))
      ensures var c := Conn(old(state), old(rx.Contents()));
        && Conn(state, rx.Contents()) == Feed(c, data)
        && log == old(log) + FeedEffects(c, data)
        && frameParseErrors == old(frameParseErrors)
             + (if old(state) == Connected then DrainErrors(old(rx.Contents()) + data) else 0)
        && rx.readPtr == ReleasedTo(rx.buf.Length, old(rx.readPtr), c, data)
        && Replied(out.Capacity(), choices, old(out.View()), old(log), log, out.View())
    {
      hide ParseFrame, HasFrame, Effects, StateAfter, Cut, NoOverflow, Payloads, Pongs, Concat, Window, Replied;
      OfferedEnough(rx.buf.Length, rx.readPtr, rx.writePtr, |data|);
      RestIsSettled(rx.Contents() + data);
      RepliedNothing(out.Capacity(), choices, out.View(), log);
      rx.Commit(data);
      if state == Connected {
        Drain();
      }
    }

    /**
     A whole series of read events that each fit without crossing the end of the ring. What is delivered is
     that of the whole stream, and what is sent in answer does not depend on how it was cut at all.
     */
    method ReceiveAll(chunks: seq<seq<byte>>)
      requires Valid() && Linear() && state == Connected && rx.Contents() == [] && log == []
      requires Fits(rx.buf.Length, rx.readPtr, OPEN, chunks) && NoOverflow(Concat(chunks))
      modifies this, rx, rx.buf, out`wire, out.tx, out.tx.buf
      ensures Valid()
      ensures Conn(state, rx.Contents()) == FeedAll(OPEN, chunks)
      ensures log == FeedAllEffects(OPEN, chunks)
      ensures Payloads(log) <= Messages(Cut(Concat(chunks)))
      ensures !MessageAfterClose(Cut(Concat(chunks))) ==> Payloads(log) == Messages(Cut(Concat(chunks)))
      ensures out.View() == Answer(old(out.View()), out.Capacity(), choices, 0,
                                   Pongs(Effects(Connected, Cut(Concat(chunks)))))
    {
      hide ParseFrame, HasFrame, Cut, Rest, Effects, StateAfter, NoOverflow, Payloads, Concat, Messages,
        Feed, FeedEffects, FeedAll, FeedAllEffects, Fits, ReleasedTo, Window, Replied, Pongs, Ongoing;
      AnyChunking(chunks);
      ghost var link := out.View();
      RepliedNothing(out.Capacity(), choices, link, log);
      ReceiveStart(chunks);
      var i := 0;
      while i < |chunks|
        invariant i <= |chunks| && Valid() && Linear()
        invariant Ongoing(chunks, i, Conn(state, rx.Contents()), log)
        invariant Fits(rx.buf.Length, rx.readPtr, Conn(state, rx.Contents()), chunks[i..])
        invariant Replied(out.Capacity(), choices, link, [], log, out.View())
      {
        ghost var before, between := log, out.View();
        ReceiveStep(rx.buf.Length, rx.readPtr, chunks, i, Conn(state, rx.Contents()), log);
        OnReadEvent(chunks[i]);
        RepliedThen(out.Capacity(), choices, link, [], between, before, out.View(), log);
        i := i + 1;
      }
      ReceiveEnd(chunks, Conn(state, rx.Contents()), log);
      RepliedFromStart(out.Capacity(), choices, link, log, out.View());
    }
  }
}
