/**
 What the receive path does to a byte stream (src/websocket.c:464-580 and 1118-1131), as functions of
 the stream: cutting it into whole frames, handling the frames in order, and feeding it in pieces.
 */
module Receive {
  import opened Bytes
  import opened Frames

  datatype WsState = Connecting | Connected | Closing | Closed

  /** A whole frame with its payload bytes as they arrived. */
  datatype WholeFrame = WholeFrame(frame: Frame, raw: seq<byte>)
  {
    predicate IsMessage() { frame.opcode == OPCODE_TEXT || frame.opcode == OPCODE_BINARY }
    predicate IsPing() { frame.opcode == OPCODE_PING }
    predicate IsClose() { frame.opcode == OPCODE_CLOSE }

    /** The payload bytes left behind: messages and pings are unmasked where they lie. */
    function Body(): (b: seq<byte>)
      ensures |b| == |raw|
    {
      if (IsMessage() || IsPing()) && frame.mask != 0 && |frame.key| == 4 then Masked(raw, frame.key) else raw
    }
  }

  /** What a handled frame causes: a callback, a pong, a note of the pong time, or the state set to closing. */
  datatype Effect = Deliver(payload: seq<byte>) | SendPong(payload: seq<byte>) | NotePong | Shut

  // ---- Cutting a stream into frames -------------------------------------------------------------

  predicate HasFrame(s: seq<byte>) {
    ParseFrame(s).Parsed? && ParseFrame(s).frame.Size() <= |s|
  }

  function Head(s: seq<byte>): (w: WholeFrame)
    requires HasFrame(s)
    ensures |w.raw| == w.frame.payloadLen
  {
    var f := ParseFrame(s).frame;
    WholeFrame(f, s[f.headerSize..f.Size()])
  }

  function Tail(s: seq<byte>): (t: seq<byte>)
    requires HasFrame(s)
    ensures |t| < |s|
  {
    ParsedShape(s);
    s[ParseFrame(s).frame.Size()..]
  }

  /** All whole frames at the front of the stream, and what remains after them. */
  function Cut(s: seq<byte>): seq<WholeFrame>
    decreases |s|
  {
    if HasFrame(s) then [Head(s)] + Cut(Tail(s)) else []
  }

  function Rest(s: seq<byte>): seq<byte>
    decreases |s|
  {
    if HasFrame(s) then Rest(Tail(s)) else s
  }

  /** The first n of them, the bytes they occupy, and the bytes after the in-place unmasking. */
  function Take(s: seq<byte>, n: nat): (r: seq<WholeFrame>)
    ensures |r| <= n
  {
    if n > 0 && HasFrame(s) then [Head(s)] + Take(Tail(s), n - 1) else []
  }

  function Consumed(s: seq<byte>, n: nat): (k: nat)
    ensures k <= |s|
    ensures k == 0 <==> n == 0 || !HasFrame(s)
  {
    if n > 0 && HasFrame(s) then |s| - |Tail(s)| + Consumed(Tail(s), n - 1) else 0
  }

  /** The first frame with its payload unmasked in place. */
  function Front(s: seq<byte>): (r: seq<byte>)
    requires HasFrame(s)
    ensures |r| + |Tail(s)| == |s|
  {
    s[..Head(s).frame.headerSize] + Head(s).Body()
  }

  function Image(s: seq<byte>, n: nat): (r: seq<byte>)
    ensures |r| == |s|
  {
    if n > 0 && HasFrame(s) then Front(s) + Image(Tail(s), n - 1) else s
  }

  /** No frame met while cutting declares a length that overflows the size computation. */
  ghost predicate NoOverflow(s: seq<byte>)
    decreases |s|
  {
    ParseFrame(s).Parsed? ==> !DeclaresOverflow(s) && HasFrame(s) && NoOverflow(Tail(s))
  }

  // ---- Handling frames -------------------------------------------------------------------------

  function NextState(st: WsState, w: WholeFrame): WsState {
    if w.IsClose() then Closing else st
  }

  function EffectOf(st: WsState, w: WholeFrame): seq<Effect> {
    if w.IsMessage() then [Deliver(w.Body())]
    else if w.IsPing() then (if st == Connected then [SendPong(w.Body())] else [])
    else if w.frame.opcode == OPCODE_PONG then [NotePong]
    else if w.IsClose() then [Shut]
    else []
  }

  function StateAfter(st: WsState, ws: seq<WholeFrame>): WsState
    decreases |ws|
  {
    if ws == [] then st else StateAfter(NextState(st, ws[0]), ws[1..])
  }

  function Effects(st: WsState, ws: seq<WholeFrame>): seq<Effect>
    decreases |ws|
  {
    if ws == [] then [] else EffectOf(st, ws[0]) + Effects(NextState(st, ws[0]), ws[1..])
  }

  function Delivered(e: Effect): seq<seq<byte>> { if e.Deliver? then [e.payload] else [] }

  function Ponged(e: Effect): seq<seq<byte>> { if e.SendPong? then [e.payload] else [] }

  function Message(w: WholeFrame): seq<seq<byte>> { if w.IsMessage() then [w.Body()] else [] }

  /** The payloads handed to the message callback. */
  function Payloads(es: seq<Effect>): seq<seq<byte>> {
    if es == [] then [] else Delivered(es[0]) + Payloads(es[1..])
  }

  function Pongs(es: seq<Effect>): seq<seq<byte>> {
    if es == [] then [] else Ponged(es[0]) + Pongs(es[1..])
  }

  function Messages(ws: seq<WholeFrame>): seq<seq<byte>> {
    if ws == [] then [] else Message(ws[0]) + Messages(ws[1..])
  }

  // ---- Laws of cutting ---------------------------------------------------------------------------

  lemma {:induction false} PayloadsAppend(a: seq<Effect>, b: seq<Effect>)
    ensures Payloads(a + b) == Payloads(a) + Payloads(b)
  {
    Unfold(a, b);
    if a == [] {
    } else {
      PayloadsAppend(a[1..], b);
      Assoc(Delivered(a[0]), Payloads(a[1..]), Payloads(b));
    }
  }

  lemma {:induction false} PongsAppend(a: seq<Effect>, b: seq<Effect>)
    ensures Pongs(a + b) == Pongs(a) + Pongs(b)
  {
    Unfold(a, b);
    if a == [] {
    } else {
      PongsAppend(a[1..], b);
      Assoc(Ponged(a[0]), Pongs(a[1..]), Pongs(b));
    }
  }

  lemma {:induction false} HandleAppend(st: WsState, a: seq<WholeFrame>, b: seq<WholeFrame>)
    ensures StateAfter(st, a + b) == StateAfter(StateAfter(st, a), b)
    ensures Effects(st, a + b) == Effects(st, a) + Effects(StateAfter(st, a), b)
    decreases |a|
  {
    Unfold(a, b);
    if a == [] {
    } else {
      var st' := NextState(st, a[0]);
      HandleAppend(st', a[1..], b);
      Assoc(EffectOf(st, a[0]), Effects(st', a[1..]), Effects(StateAfter(st', a[1..]), b));
    }
  }

  lemma {:induction false} EffectsDeliverMessages(st: WsState, ws: seq<WholeFrame>)
    ensures Payloads(Effects(st, ws)) == Messages(ws)
    decreases |ws|
  {
    hide ParseFrame;
    if ws == [] {
    } else {
      EffectsDeliverMessages(NextState(st, ws[0]), ws[1..]);
      PayloadsAppend(EffectOf(st, ws[0]), Effects(NextState(st, ws[0]), ws[1..]));
    }
  }

  lemma {:induction false} MessagesAppend(a: seq<WholeFrame>, b: seq<WholeFrame>)
    ensures Messages(a + b) == Messages(a) + Messages(b)
  {
    Unfold(a, b);
    if a == [] {
    } else {
      MessagesAppend(a[1..], b);
      Assoc(Message(a[0]), Messages(a[1..]), Messages(b));
    }
  }

  /** A whole frame at the front stays the same when bytes are added behind. */
  lemma HeadExtends(s: seq<byte>, t: seq<byte>)
    requires HasFrame(s)
    ensures HasFrame(s + t) && Head(s + t) == Head(s) && Tail(s + t) == Tail(s) + t
  {
    ParseExtends(s, t);
    var f := ParseFrame(s).frame;
    assert (s + t)[f.headerSize..f.Size()] == s[f.headerSize..f.Size()];
    assert (s + t)[f.Size()..] == s[f.Size()..] + t;
  }

  /** Cutting a longer stream is cutting its front, then cutting what remained with the new bytes. */
  lemma {:induction false} CutAppend(s: seq<byte>, t: seq<byte>)
    ensures Cut(s + t) == Cut(s) + Cut(Rest(s) + t)
    ensures Rest(s + t) == Rest(Rest(s) + t)
    decreases |s|
  {
    hide ParseFrame;
    if !HasFrame(s) {
    } else {
      HeadExtends(s, t);
      CutAppend(Tail(s), t);
      Assoc([Head(s)], Cut(Tail(s)), Cut(Rest(s) + t));
    }
  }

  lemma DropTail(s: seq<byte>, n: nat)
    requires n > 0 && HasFrame(s)
    ensures s[Consumed(s, n)..] == Tail(s)[Consumed(Tail(s), n - 1)..]
  {}

  /** Taking n frames at a time loses nothing. */
  lemma {:induction false} TakeThenCut(s: seq<byte>, n: nat)
    ensures Cut(s) == Take(s, n) + Cut(s[Consumed(s, n)..])
    ensures Rest(s) == Rest(s[Consumed(s, n)..])
    decreases n
  {
    hide ParseFrame;
    if n > 0 && HasFrame(s) {
      TakeThenCut(Tail(s), n - 1);
      DropTail(s, n);
      Assoc([Head(s)], Take(Tail(s), n - 1), Cut(s[Consumed(s, n)..]));
    } else {
      assert s[0..] == s;
    }
  }

  lemma {:induction false} RestIsSettled(s: seq<byte>)
    ensures !HasFrame(Rest(s)) && Cut(Rest(s)) == [] && |Rest(s)| <= |s|
    ensures Rest(s) == s[|s| - |Rest(s)|..]
    decreases |s|
  {
    hide ParseFrame;
    if !HasFrame(s) {
    } else {
      RestIsSettled(Tail(s));
    }
  }

  lemma DropMore(a: seq<byte>, b: seq<byte>, k: nat)
    requires k <= |b|
    ensures (a + b)[|a| + k..] == b[k..]
  {}

  lemma NothingToCut(s: seq<byte>)
    requires !HasFrame(s)
    ensures Cut(s) == [] && Rest(s) == s
    ensures Effects(Connected, []) == []
  {}

  /** The in-place unmasking leaves every byte that is not consumed. */
  lemma {:induction false} ImageKeepsRest(s: seq<byte>, n: nat)
    ensures Image(s, n)[Consumed(s, n)..] == s[Consumed(s, n)..]
    decreases n
  {
    hide ParseFrame, Front;
    if n == 0 || !HasFrame(s) {
    } else {
      ImageKeepsRest(Tail(s), n - 1);
      DropTail(s, n);
      DropMore(Front(s), Image(Tail(s), n - 1), Consumed(Tail(s), n - 1));
    }
  }

  /** Bytes that the parser accepts hold the whole frame, unless the header declares an overflow. */
  lemma AcceptedIsWhole(s: seq<byte>)
    requires ParseFrame(s).Parsed? && !DeclaresOverflow(s)
    ensures HasFrame(s)
  {
    hide ParseFrame, DeclaresOverflow;
    ParsedShape(s);
    SizeFromHeader(s);
  }

  lemma {:induction false} NoOverflowSplits(s: seq<byte>, t: seq<byte>)
    requires NoOverflow(s + t)
    ensures NoOverflow(s) && NoOverflow(Rest(s) + t)
    decreases |s|
  {
    hide ParseFrame, DeclaresOverflow;
    if !ParseFrame(s).Parsed? {
    } else {
      ParseExtends(s, t);
      SizeFromHeader(s);
      SizeFromHeader(s + t);
      AcceptedIsWhole(s);
      HeadExtends(s, t);
      NoOverflowSplits(Tail(s), t);
    }
  }

  /** Every 64-bit length met while cutting has its top bit clear. */
  ghost predicate TopBitsClear(s: seq<byte>)
    decreases |s|
  {
    ParseFrame(s).Parsed? ==>
      && (|s| >= 10 && s[1] & 0x7F == 127 ==> s[2] as nat < 128)
      && (HasFrame(s) ==> TopBitsClear(Tail(s)))
  }

  /** A peer that keeps to section 5.2 of RFC 6455 never causes an overflow. */
  lemma {:induction false} TopBitsClearIsEnough(s: seq<byte>)
    requires TopBitsClear(s)
    ensures NoOverflow(s)
    decreases |s|
  {
    hide ParseFrame, BigEndian;
    if !ParseFrame(s).Parsed? {
    } else {
      if |s| >= 10 && s[2] as nat < 128 { TopBitClear(s); }
      AcceptedIsWhole(s);
      TopBitsClearIsEnough(Tail(s));
    }
  }

  // ---- Feeding a stream in pieces ------------------------------------------------------------------

  /** A connection as the receive path sees it: its state and the bytes not yet consumed. */
  datatype Conn = Conn(state: WsState, pending: seq<byte>)

  /** One read event: the bytes are appended, and drained if the connection is open. */
  function Feed(c: Conn, data: seq<byte>): Conn {
    var s := c.pending + data;
    if c.state == Connected then Conn(StateAfter(Connected, Cut(s)), Rest(s)) else Conn(c.state, s)
  }

  function FeedEffects(c: Conn, data: seq<byte>): seq<Effect> {
    if c.state == Connected then Effects(Connected, Cut(c.pending + data)) else []
  }

  function FeedAll(c: Conn, chunks: seq<seq<byte>>): Conn
    decreases |chunks|
  {
    if chunks == [] then c else FeedAll(Feed(c, chunks[0]), chunks[1..])
  }

  function FeedAllEffects(c: Conn, chunks: seq<seq<byte>>): seq<Effect>
    decreases |chunks|
  {
    if chunks == [] then [] else
      FeedEffects(c, chunks[0]) + FeedAllEffects(Feed(c, chunks[0]), chunks[1..])
  }

  ghost predicate HasClose(ws: seq<WholeFrame>) {
    exists i | 0 <= i < |ws| :: ws[i].IsClose()
  }

  lemma {:induction false} StateTracksClose(st: WsState, ws: seq<WholeFrame>)
    ensures StateAfter(st, ws) == if HasClose(ws) then Closing else st
    decreases |ws|
  {
    if ws == [] {
    } else {
      StateTracksClose(NextState(st, ws[0]), ws[1..]);
      assert HasClose(ws[1..]) ==> HasClose(ws) by {
        if HasClose(ws[1..]) {
          var i :| 0 <= i < |ws[1..]| && ws[1..][i].IsClose();
          assert ws[i + 1].IsClose();
        }
      }
      if HasClose(ws) && !ws[0].IsClose() {
        var i :| 0 <= i < |ws| && ws[i].IsClose();
        assert ws[1..][i - 1].IsClose();
      }
    }
  }

  lemma {:induction false} ClosedIgnores(c: Conn, chunks: seq<seq<byte>>)
    requires c.state != Connected
    ensures FeedAllEffects(c, chunks) == []
    decreases |chunks|
  {
    if chunks == [] {
    } else {
      ClosedIgnores(Feed(c, chunks[0]), chunks[1..]);
    }
  }

  /**
   However the stream is cut into reads, the run handles exactly its first k frames in order, where
   either k is all of them or a close frame is among the k.
   */
  lemma {:induction false} ChunkedHandlesPrefix(c: Conn, chunks: seq<seq<byte>>) returns (k: nat)
    requires c.state == Connected && !HasFrame(c.pending) && NoOverflow(c.pending + Concat(chunks))
    ensures k <= |Cut(c.pending + Concat(chunks))|
    ensures var ws := Cut(c.pending + Concat(chunks));
      && FeedAllEffects(c, chunks) == Effects(Connected, ws[..k])
      && (k == |ws| || HasClose(ws[..k]))
      && (!HasClose(ws) ==> FeedAll(c, chunks) == Conn(Connected, Rest(c.pending + Concat(chunks))))
    decreases |chunks|
  {
    hide ParseFrame, HasFrame, Cut, Rest, EffectOf, NextState, Effects, StateAfter, NoOverflow;
    NothingToCut(c.pending);
    if chunks == [] {
      assert c.pending + Concat(chunks) == c.pending;
      k := 0;
      assert Cut(c.pending)[..0] == [];
    } else {
      var s, later := c.pending + chunks[0], Concat(chunks[1..]);
      var first := Cut(s);
      assert c.pending + Concat(chunks) == s + later;
      CutAppend(s, later);
      NoOverflowSplits(s, later);
      StateTracksClose(Connected, first);
      RestIsSettled(s);
      var ws := Cut(s + later);
      if HasClose(first) {
        k := |first|;
        assert ws[..k] == first;
        ClosedIgnores(Feed(c, chunks[0]), chunks[1..]);
        CloseInPart(first, Cut(Rest(s) + later));
      } else {
        var j := ChunkedHandlesPrefix(Feed(c, chunks[0]), chunks[1..]);
        var second := Cut(Rest(s) + later);
        k := |first| + j;
        assert ws[..k] == first + second[..j];
        HandleAppend(Connected, first, second[..j]);
        CloseInPart(first, second[..j]);
        CloseInPart(first, second);
      }
    }
  }

  lemma CloseInPart(a: seq<WholeFrame>, b: seq<WholeFrame>)
    ensures HasClose(a + b) <==> HasClose(a) || HasClose(b)
  {
    if HasClose(a) {
      var i :| 0 <= i < |a| && a[i].IsClose();
      assert (a + b)[i].IsClose();
    }
    if HasClose(b) {
      var i :| 0 <= i < |b| && b[i].IsClose();
      assert (a + b)[|a| + i].IsClose();
    }
  }

  /** A masked message or ping is handled with exactly the payload its sender masked. */
  lemma MaskedFrameArrives(opcode: byte, payload: seq<byte>, key: seq<byte>, t: seq<byte>)
    requires opcode == OPCODE_TEXT || opcode == OPCODE_BINARY || opcode == OPCODE_PING
    requires |payload| + 14 < TWO_64 && |key| == 4
    ensures var s := EncodeMasked(opcode, payload, key) + t;
      && HasFrame(s) && Tail(s) == t
      && EffectOf(Connected, Head(s)) == [if opcode == OPCODE_PING then SendPong(payload) else Deliver(payload)]
  {
    hide ParseFrame, EncodeMasked, Masked;
    MaskedRoundTrip(opcode, payload, key, t);
  }

  // ---- Independence of how the stream is cut -----------------------------------------------------

  /** Bytes that begin with n whole frames, cut right after them. */
  lemma {:induction false} CutPrefix(s: seq<byte>, n: nat)
    requires n <= |Cut(s)|
    ensures Cut(s[..Consumed(s, n)]) == Cut(s)[..n] && Rest(s[..Consumed(s, n)]) == []
    decreases n
  {
    hide ParseFrame;
    if n == 0 {
      EmptyHasNoFrame();
      assert s[..0] == [] && Cut(s)[..0] == [];
    } else {
      var m := Consumed(s, n);
      CutPrefix(Tail(s), n - 1);
      HeadOfPrefix(s, m);
      assert Cut(s)[..n] == [Head(s)] + Cut(Tail(s))[..n - 1];
    }
  }

  lemma EmptyHasNoFrame()
    ensures !HasFrame([]) && Cut([]) == [] && Rest([]) == []
  {}

  lemma HeadOfPrefix(s: seq<byte>, m: nat)
    requires HasFrame(s) && |s| - |Tail(s)| <= m <= |s|
    ensures HasFrame(s[..m]) && Head(s[..m]) == Head(s)
    ensures Tail(s[..m]) == Tail(s)[..m - (|s| - |Tail(s)|)]
  {
    WholePrefixParses(s, m);
    var f := ParseFrame(s).frame;
    hide ParseFrame;
    assert s[..m][f.headerSize..f.Size()] == s[f.headerSize..f.Size()];
    assert s[..m][f.Size()..] == s[f.Size()..][..m - f.Size()];
  }

  lemma {:induction false} NoMessages(ws: seq<WholeFrame>)
    ensures Messages(ws) == [] <==> forall i | 0 <= i < |ws| :: !ws[i].IsMessage()
  {
    if ws == [] {
    } else {
      NoMessages(ws[1..]);
      if Messages(ws) == [] {
        forall i | 0 <= i < |ws| ensures !ws[i].IsMessage() {
          if i > 0 { assert !ws[1..][i - 1].IsMessage(); }
        }
      }
    }
  }

  lemma {:induction false} NoPongsOnceLeft(st: WsState, ws: seq<WholeFrame>)
    requires st != Connected
    ensures Pongs(Effects(st, ws)) == []
    decreases |ws|
  {
    if ws == [] {
    } else {
      NoPongsOnceLeft(NextState(st, ws[0]), ws[1..]);
      PongsAppend(EffectOf(st, ws[0]), Effects(NextState(st, ws[0]), ws[1..]));
    }
  }

  ghost predicate MessageAfterClose(ws: seq<WholeFrame>) {
    exists i, j | 0 <= i < j < |ws| :: ws[i].IsClose() && ws[j].IsMessage()
  }

  const OPEN: Conn := Conn(Connected, [])

  /** Whatever the cutting, the callbacks are a prefix of the stream's messages, and the pongs are all of its pongs. */
  lemma AnyChunking(chunks: seq<seq<byte>>)
    requires NoOverflow(Concat(chunks))
    ensures var ws := Cut(Concat(chunks));
      && Payloads(FeedAllEffects(OPEN, chunks)) <= Messages(ws)
      && Pongs(FeedAllEffects(OPEN, chunks)) == Pongs(Effects(Connected, ws))
      && (!MessageAfterClose(ws) ==> Payloads(FeedAllEffects(OPEN, chunks)) == Messages(ws))
      && (!HasClose(ws) ==>
            && FeedAllEffects(OPEN, chunks) == Effects(Connected, ws)
            && FeedAll(OPEN, chunks) == Conn(Connected, Rest(Concat(chunks))))
  {
    hide ParseFrame, Cut, Rest, EffectOf, NoOverflow;
    EmptyHasNoFrame();
    assert [] + Concat(chunks) == Concat(chunks);
    var k := ChunkedHandlesPrefix(OPEN, chunks);
    var ws := Cut(Concat(chunks));
    assert ws == ws[..k] + ws[k..];
    EffectsDeliverMessages(Connected, ws[..k]);
    MessagesAppend(ws[..k], ws[k..]);
    CloseInPart(ws[..k], ws[k..]);
    StateTracksClose(Connected, ws[..k]);
    PongsAfter(ws[..k], ws[k..]);
    if !MessageAfterClose(ws) && k < |ws| {
      var i :| 0 <= i < k && ws[..k][i].IsClose();
      forall j | 0 <= j < |ws[k..]| ensures !ws[k..][j].IsMessage() {
        assert ws[i].IsClose() && ws[k..][j] == ws[k + j];
      }
      NoMessages(ws[k..]);
    }
    assert k == |ws| ==> ws[..k] == ws;
  }

  lemma PongsAfter(a: seq<WholeFrame>, b: seq<WholeFrame>)
    requires b == [] || HasClose(a)
    ensures Pongs(Effects(Connected, a + b)) == Pongs(Effects(Connected, a))
  {
    HandleAppend(Connected, a, b);
    StateTracksClose(Connected, a);
    PongsAppend(Effects(Connected, a), Effects(StateAfter(Connected, a), b));
    if b != [] { NoPongsOnceLeft(Closing, b); }
  }

  /** Cutting the reads right after a close frame loses every message behind it. */
  lemma CutAfterClose(s: seq<byte>, i: nat)
    requires i < |Cut(s)| && Cut(s)[i].IsClose() && NoOverflow(s)
    ensures var k := Consumed(s, i + 1);
      Payloads(FeedAllEffects(OPEN, [s[..k], s[k..]])) == Messages(Cut(s)[..i + 1])
  {
    hide ParseFrame, Cut, Rest, Consumed, Effects, StateAfter, Messages, Payloads;
    var k, ws := Consumed(s, i + 1), Cut(s)[..i + 1];
    CutPrefix(s, i + 1);
    assert [] + s[..k] == s[..k];
    assert ws[i].IsClose();
    StateTracksClose(Connected, ws);
    ClosedIgnores(Feed(OPEN, s[..k]), [s[k..]]);
    assert [s[..k], s[k..]][1..] == [s[k..]];
    assert FeedAllEffects(OPEN, [s[..k], s[k..]]) == Effects(Connected, ws) + [] == Effects(Connected, ws);
    EffectsDeliverMessages(Connected, ws);
  }

  /**
   For a stream without overflowing lengths, the delivered messages are the same for every way of cutting it
   into reads exactly when no message frame follows a close frame: after a close, frames of the same read are
   still delivered but frames of later reads are not.
   */
  lemma ChunkingIndependence(s: seq<byte>)
    requires NoOverflow(s)
    ensures (forall chunks | Concat(chunks) == s :: Payloads(FeedAllEffects(OPEN, chunks)) == Messages(Cut(s)))
       <==> !MessageAfterClose(Cut(s))
  {
    hide ParseFrame, Cut, Rest, FeedAllEffects, Payloads;
    var ws := Cut(s);
    if MessageAfterClose(ws) {
      var i, j :| 0 <= i < j < |ws| && ws[i].IsClose() && ws[j].IsMessage();
      CutAfterClose(s, i);
      var k := Consumed(s, i + 1);
      TwoChunks(s, k);
      assert ws == ws[..i + 1] + ws[i + 1..];
      MessagesAppend(ws[..i + 1], ws[i + 1..]);
      assert ws[i + 1..][j - i - 1].IsMessage();
      NoMessages(ws[i + 1..]);
      assert Payloads(FeedAllEffects(OPEN, [s[..k], s[k..]])) != Messages(ws);
    } else {
      forall chunks | Concat(chunks) == s
        ensures Payloads(FeedAllEffects(OPEN, chunks)) == Messages(ws)
      {
        AnyChunking(chunks);
      }
    }
  }

  /** The shortest such stream: an empty close frame and an empty message. */
  lemma CloseThenMessage()
    ensures var s := [0x88, 0x00, 0x81, 0x00];
      NoOverflow(s) && MessageAfterClose(Cut(s))
  {
    var s: seq<byte> := [0x88, 0x00, 0x81, 0x00];
    var t := s[2..];
    var close, text := Frame(1, OPCODE_CLOSE, 0, 7, 0, NO_KEY, 2), Frame(1, OPCODE_TEXT, 0, 7, 0, NO_KEY, 2);
    assert ParseFrame(s) == Parsed(close) && Tail(s) == t;
    assert ParseFrame(t) == Parsed(text) && Tail(t) == [];
    var ws := [WholeFrame(close, []), WholeFrame(text, [])];
    assert Cut(s) == [Head(s)] + ([Head(t)] + Cut([])) == ws;
    assert ws[0].IsClose() && ws[1].IsMessage();
  }

  lemma TwoChunks(s: seq<byte>, k: nat)
    requires k <= |s|
    ensures Concat([s[..k], s[k..]]) == s
  {
    assert [s[..k], s[k..]][1..] == [s[k..]];
    assert Concat([s[k..]]) == s[k..] + Concat([]);
  }
}
