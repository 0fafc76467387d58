/**
 What a series of requests delivers (src/websocket.c:464-580, 973-1220): the messages of the stream received, with
 TLS or without, and what single calls count and leave.
 */
module SessionStreams {
  import opened Bytes
  import opened RingBuffers
  import opened Frames
  import opened Receive
  import opened Transmit
  import opened Regions
  import opened Lifecycles
  import opened Heartbeats
  import opened Sessions
  import opened SessionRuns

  // ---- What is delivered --------------------------------------------------------------------------------------

  /**
   From a to b, during which d arrived, ws was handled off the front of the stream. While the connection is open,
   what is left of the stream is what is unread.
   */
  ghost predicate Advanced(a: Session, d: seq<byte>, b: Session, ws: seq<WholeFrame>) {
    var stream := a.unread + d;
    && ws <= Cut(stream)
    && Payloads(b.effects) == Payloads(a.effects) + Messages(ws)
    && (b.Open() ==> Cut(stream) == ws + Cut(b.unread) && Rest(stream) == Rest(b.unread))
  }

  lemma AdvancedThen(
    a: Session, d: seq<byte>, b: Session, ws: seq<WholeFrame>, e: seq<byte>, c: Session, us: seq<WholeFrame>)
    requires b.Open() && Advanced(a, d, b, ws) && Advanced(b, e, c, us)
    ensures Advanced(a, d + e, c, ws + us)
  {
    hide Cut, Rest, Payloads, Messages;
    Assoc(a.unread, d, e);
    CutAppend(a.unread + d, e);
    CutAppend(b.unread, e);
    Assoc(ws, Cut(b.unread), Cut(Rest(b.unread) + e));
    MessagesAppend(ws, us);
    Assoc(Payloads(a.effects), Messages(ws), Messages(us));
    assert Cut(a.unread + (d + e)) == ws + Cut(b.unread + e);
    if c.Open() { Assoc(ws, us, Cut(c.unread)); }
  }

  /** Nothing is handled any more once the connection was left. */
  lemma AdvancedStays(a: Session, d: seq<byte>, b: Session, ws: seq<WholeFrame>, c: Session)
    requires !b.Open() && Advanced(a, d, b, ws) && !c.Open() && c.effects == b.effects
    ensures Advanced(a, d, c, ws)
  {
    hide Cut, Rest, Payloads, Messages;
  }

  lemma HandledDelivers(env: Env, s: Session, ws: seq<WholeFrame>, now: nat)
    requires |s.link.queue| <= env.capacity
    ensures Payloads(Handled(env, s, ws, now).effects) == Payloads(s.effects) + Messages(ws)
  {
    hide Effects, Answer, OnFrames, Payloads, Messages;
    EffectsDeliverMessages(s.track.state, ws);
    PayloadsAppend(s.effects, Effects(s.track.state, ws));
  }

  lemma PassAdvances(env: Env, a: Session, d: seq<byte>, s: Session, now: nat)
    requires Sound(env, s) && s.unread == a.unread + d && s.effects == a.effects
    ensures Advanced(a, d, Pass(env, s, now), Take(s.unread, MAX_PARSE_ATTEMPTS))
  {
    hide Take, Consumed, Cut, Rest, Payloads, Messages, Effects, OnFrames, Answer;
    var n, q := MAX_PARSE_ATTEMPTS, s.unread;
    HandledDelivers(env, Released(env, s, Consumed(q, n)).(errors := s.errors + PassErrors(q)), Take(q, n), now);
    TakeThenCut(q, n);
  }

  lemma ArrivedAdvances(env: Env, s: Session, a: Arrival, now: nat)
    requires Sound(env, s) && HoldsArrival(env, s, a) && s.Open()
    ensures var d := if a.Bytes? then a.data else [];
      Advanced(s, d, Arrived(env, s, a, now), if a.Bytes? then Cut(s.unread + d) else [])
  {
    hide Cut, Rest, Payloads, Messages, Effects, OnFrames, Answer, DrainErrors, NoOverflow;
    if a.Bytes? {
      var s' := Received(env, s, a.data);
      var q := s'.unread;
      RestIsSettled(q);
      HandledDelivers(env, Released(env, s', |q| - |Rest(q)|).(errors := s'.errors + DrainErrors(q)), Cut(q), now);
      NothingToCut(Rest(q));
      assert Cut(q) + [] == Cut(q);
    } else {
      assert s.unread + [] == s.unread && Payloads(s.effects) + [] == Payloads(s.effects);
      EmptyHasNoMessage();
    }
  }

  lemma EmptyHasNoMessage()
    ensures Messages([]) == []
  {}

  lemma {:induction false} DrainAdvances(
    env: Env, a: Session, d: seq<byte>, s: Session, ws: seq<WholeFrame>, now: nat, left: nat)
    requires Sound(env, s) && Advanced(a, d, s, ws)
    ensures Advanced(a, d, DrainedTls(env, s, now, left), ws + DrainFrames(env, s, now, left))
    decreases left
  {
    hide Pass, Advanced, Take;
    if left == 0 || !s.Open() {
      assert ws + [] == ws;
    } else {
      var s', us := Pass(env, s, now), Take(s.unread, MAX_PARSE_ATTEMPTS);
      assert s.unread + [] == s.unread && d + [] == d;
      PassAdvances(env, s, [], s, now);
      AdvancedThen(a, d, s, ws, [], s', us);
      DrainAdvances(env, a, d, s', ws + us, now, left - 1);
      Assoc(ws, us, DrainFrames(env, s', now, left - 1));
    }
  }

  lemma GotAdvances(env: Env, s: Session, data: seq<byte>, now: nat)
    requires Sound(env, s) && Holds(env, s, data)
    ensures Advanced(s, data, TlsGot(env, s, data, now), GotFrames(env, s, data, now))
  {
    hide Pass, Advanced, Take, DrainedTls, DrainFrames, NoOverflow;
    var s' := Received(env, s, data);
    PassAdvances(env, s, data, s', now);
    DrainAdvances(env, s, data, Pass(env, s', now), Take(s'.unread, MAX_PARSE_ATTEMPTS), now, MAX_TLS_DRAINS);
  }

  /** The bytes that the TLS loop reads, and the frames it handles. */
  ghost function TlsBytes(env: Env, s: Session, inputs: seq<TlsInput>, i: nat, progress: bool, now: nat): seq<byte>
    requires Sound(env, s) && HoldsReads(env, s, inputs, i, progress, now)
    decreases MAX_TLS_READS - i
  {
    if i >= MAX_TLS_READS || !s.Open() then [] else
      match ReadAt(inputs, i)
      case Got(data) => data + TlsBytes(env, TlsGot(env, s, data, now), inputs, i + 1, true, now)
      case NoData =>
        if progress && i + 1 < 5 then TlsBytes(env, Pass(env, s, now), inputs, i + 1, progress, now) else []
      case Failed => []
  }

  lemma {:induction false} TlsLoopAdvances(
    env: Env, s: Session, inputs: seq<TlsInput>, i: nat, progress: bool, now: nat)
    returns (ws: seq<WholeFrame>)
    requires Sound(env, s) && HoldsReads(env, s, inputs, i, progress, now) && s.Open()
    ensures Advanced(s, TlsBytes(env, s, inputs, i, progress, now),
                     TlsLoop(env, s, inputs, i, progress, now), ws)
    decreases MAX_TLS_READS - i
  {
    hide Pass, Advanced, Take, TlsGot, NoOverflow;
    var end := TlsLoop(env, s, inputs, i, progress, now);
    ws := Take(s.unread, MAX_PARSE_ATTEMPTS);
    assert s.unread + [] == s.unread;
    if i >= MAX_TLS_READS {
      ws := [];
      AdvancedNothing(s);
    } else {
      match ReadAt(inputs, i)
      case Got(data) =>
        var s' := TlsGot(env, s, data, now);
        ws := GotFrames(env, s, data, now);
        GotAdvances(env, s, data, now);
        if s'.Open() {
          var us := TlsLoopAdvances(env, s', inputs, i + 1, true, now);
          AdvancedThen(s, data, s', ws, TlsBytes(env, s', inputs, i + 1, true, now), end, us);
          ws := ws + us;
        } else {
          assert data + [] == data;
        }
      case NoData =>
        var s' := Pass(env, s, now);
        PassAdvances(env, s, [], s, now);
        if progress && i + 1 < 5 && s'.Open() {
          var us := TlsLoopAdvances(env, s', inputs, i + 1, progress, now);
          var d := TlsBytes(env, s', inputs, i + 1, progress, now);
          AdvancedThen(s, [], s', ws, d, end, us);
          assert [] + d == d;
          ws := ws + us;
        }
      case Failed => PassAdvances(env, s, [], s.(track := Move(s.track, Closed)), now);
    }
  }

  lemma AdvancedNothing(s: Session)
    ensures Advanced(s, [], s, [])
  {
    hide Cut, Rest, Payloads;
    EmptyHasNoMessage();
    assert s.unread + [] == s.unread && Payloads(s.effects) + [] == Payloads(s.effects);
    assert [] + Cut(s.unread) == Cut(s.unread);
  }

  /** The bytes that a request brings to an open connection. */
  ghost function BytesOf(env: Env, s: Session, r: Request): seq<byte>
    requires Sound(env, s) && Takes(env, s, r)
  {
    if !r.ProcessOnce? || !s.Open() then [] else
      var s1 := Arrived(env, s, r.arrival, r.now);
      (if r.arrival.Bytes? then r.arrival.data else []) +
      (if r.tls && s1.Open() then TlsBytes(env, s1, r.inputs, 0, false, r.now) else [])
  }

  lemma HandlingAdvances(env: Env, s: Session, r: Request) returns (ws: seq<WholeFrame>)
    requires r.ProcessOnce? && Sound(env, s) && Takes(env, s, r) && s.Open()
    ensures Advanced(s, BytesOf(env, s, r), Handling(env, s, r), ws)
  {
    hide Pass, Arrived, TlsLoop, TlsBytes, Advanced, HoldsArrival, HoldsReads, Take, Cut;
    var s1 := Arrived(env, s, r.arrival, r.now);
    var d := if r.arrival.Bytes? then r.arrival.data else [];
    ArrivedAdvances(env, s, r.arrival, r.now);
    ws := if r.arrival.Bytes? then Cut(s.unread + d) else [];
    assert d + [] == d;
    if s1.Open() {
      var s2 := s1;
      if r.tls {
        s2 := TlsLoop(env, s1, r.inputs, 0, false, r.now);
        var us := TlsLoopAdvances(env, s1, r.inputs, 0, false, r.now);
        var e := TlsBytes(env, s1, r.inputs, 0, false, r.now);
        AdvancedThen(s, d, s1, ws, e, s2, us);
        ws, d := ws + us, d + e;
      }
      if s2.Open() {
        assert s2.unread + [] == s2.unread && d + [] == d;
        PassAdvances(env, s2, [], s2, r.now);
        AdvancedThen(s, d, s2, ws, [], Pass(env, s2, r.now), Take(s2.unread, MAX_PARSE_ATTEMPTS));
        ws := ws + Take(s2.unread, MAX_PARSE_ATTEMPTS);
      }
    }
  }

  lemma StepAdvances(env: Env, s: Session, r: Request) returns (ws: seq<WholeFrame>)
    requires Sound(env, s) && Takes(env, s, r) && s.Open()
    ensures Advanced(s, BytesOf(env, s, r), Step(env, s, r), ws)
  {
    hide Handling, NoOverflow, Cut, Rest, Payloads, Transmit.Send;
    if r.ProcessOnce? {
      hide BytesOf;
      ws := HandlingAdvances(env, s, r);
    } else {
      ws := [];
      AdvancedNothing(s);
    }
  }

  /** All bytes that a series of requests brings, up to the one in which the connection is left. */
  ghost function AllBytes(env: Env, s: Session, rs: seq<Request>): seq<byte>
    requires Sound(env, s) && TakesAll(env, s, rs)
    decreases |rs|
  {
    if rs == [] || !s.Open() then [] else
      BytesOf(env, s, rs[0]) + AllBytes(env, Step(env, s, rs[0]), rs[1..])
  }

  lemma {:induction false} RunAdvances(env: Env, s: Session, rs: seq<Request>) returns (ws: seq<WholeFrame>)
    requires Ready(env, s) && TakesAll(env, s, rs) && s.Open()
    ensures Advanced(s, AllBytes(env, s, rs), RunAll(env, s, rs), ws)
    decreases |rs|
  {
    hide Step, Takes, BytesOf, Advanced, NoOverflow, LegalLog;
    if rs == [] {
      ws := [];
      AdvancedNothing(s);
    } else {
      var s', d := Step(env, s, rs[0]), BytesOf(env, s, rs[0]);
      StepKeeps(env, s, rs[0]);
      ws := StepAdvances(env, s, rs[0]);
      if s'.Open() {
        var us := RunAdvances(env, s', rs[1..]);
        AdvancedThen(s, d, s', ws, AllBytes(env, s', rs[1..]), RunAll(env, s, rs), us);
        ws := ws + us;
      } else {
        StaysLeft(env, s, rs[0]);
        RunWhenGone(env, s', rs[1..]);
        AdvancedStays(s, d, s', ws, RunAll(env, s, rs));
        assert d + [] == d;
      }
    }
  }

  /** An open connection is left only for CLOSING or CLOSED. */
  lemma StaysLeft(env: Env, s: Session, r: Request)
    requires Ready(env, s) && Takes(env, s, r) && s.Open()
    ensures Step(env, s, r).Open() || Step(env, s, r).Gone()
  {
    hide Step, Takes, NoOverflow, Lifecycles.Run;
    StepKeeps(env, s, r);
    StepTracks(env, s, r);
    OpenWasOpen(s.track);
    RunGrows(s.track, OpOf(env, s, r));
  }

  /**
   Over every series of requests on an open connection, with TLS or without, whatever is sent in between: the
   messages delivered are those of the leading frames of the stream received, in order and each once. While the
   connection is open, the frames not yet handled are those of the unread bytes; none is lost.
   */
  lemma SessionDelivers(env: Env, s: Session, rs: seq<Request>) returns (k: nat)
    requires Ready(env, s) && TakesAll(env, s, rs) && s.Open()
    ensures var s', ws := RunAll(env, s, rs), Cut(s.unread + AllBytes(env, s, rs));
      && k <= |ws|
      && Payloads(s'.effects) == Payloads(s.effects) + Messages(ws[..k])
      && (s'.Open() ==> ws[k..] == Cut(s'.unread))
      && (s'.Open() && !HasFrame(s'.unread) ==> k == |ws|)
  {
    hide RunAll, AllBytes, Cut, Rest, Payloads, Messages, NoOverflow, HasFrame;
    var ws := RunAdvances(env, s, rs);
    k := |ws|;
    var all := Cut(s.unread + AllBytes(env, s, rs));
    assert all[..k] == ws;
    var s' := RunAll(env, s, rs);
    assert s'.Open() ==> all[k..] == Cut(s'.unread);
    if !HasFrame(s'.unread) { NothingToCut(s'.unread); }
  }

  // ---- Single calls exactly -----------------------------------------------------------------------------------

  /** Handling ws has led from a to s. */
  ghost predicate Reached(a: Session, ws: seq<WholeFrame>, s: Session) {
    s.effects == a.effects + Effects(a.track.state, ws) && s.track.state == StateAfter(a.track.state, ws)
  }

  lemma PassReaches(env: Env, a: Session, ws: seq<WholeFrame>, s: Session, now: nat)
    requires Sound(env, s) && Reached(a, ws, s)
    ensures Reached(a, ws + Take(s.unread, MAX_PARSE_ATTEMPTS), Pass(env, s, now))
  {
    hide Take, Consumed, Effects, StateAfter, OnFrames, Answer, PassErrors;
    var us := Take(s.unread, MAX_PARSE_ATTEMPTS);
    HandleAppend(a.track.state, ws, us);
    FramesAsEffects(s.track, us);
    Assoc(a.effects, Effects(a.track.state, ws), Effects(s.track.state, us));
  }

  /** The drain goes on for m - m0 more passes; it stops early only if the connection is left or no frame is left. */
  lemma {:induction false} DrainExactly(
    env: Env, a: Session, q: seq<byte>, m0: nat, s: Session, now: nat, left: nat)
    returns (m: nat)
    requires Sound(env, s) && a.readPtr + |q| <= env.size && a.readPtr < env.size && |q| < env.size
    requires Reached(a, Take(q, m0 * MAX_PARSE_ATTEMPTS), s)
    requires Passed(env.size, a.readPtr, q, m0, s.unread, s.readPtr)
    ensures var s' := DrainedTls(env, s, now, left);
      && m0 <= m <= m0 + left
      && Reached(a, Take(q, m * MAX_PARSE_ATTEMPTS), s')
      && Passed(env.size, a.readPtr, q, m, s'.unread, s'.readPtr)
      && (m == m0 + left || !s'.Open() || !HasFrame(s'.unread))
    decreases left
  {
    hide Take, Consumed, Effects, StateAfter, OnFrames, Answer, PassErrors, Reached, Passed, HasFrame;
    if left == 0 || !s.Open() {
      m := m0;
    } else {
      var s' := Pass(env, s, now);
      PassReaches(env, a, Take(q, m0 * MAX_PARSE_ATTEMPTS), s, now);
      PassedMore(env.size, a.readPtr, q, m0, s.unread, s.readPtr);
      if s'.readPtr == s.readPtr {
        m := m0 + 1;
        assert s'.unread == s.unread[0..] == s.unread;
      } else {
        m := DrainExactly(env, a, q, m0 + 1, s', now, left - 1);
      }
    }
  }

  /**
   A TLS read handles the first m thousand frames, for an m of at most 51, and releases exactly their bytes. It
   stops short of 51 only if the connection is left or no whole frame is left.
   */
  lemma TlsGotExactly(env: Env, s: Session, data: seq<byte>, now: nat) returns (m: nat)
    requires Sound(env, s) && s.Open() && Holds(env, s, data)
    ensures var q, n, s' := s.unread + data, m * MAX_PARSE_ATTEMPTS, TlsGot(env, s, data, now);
      && 1 <= m <= 51
      && s'.effects == s.effects + Effects(Connected, Take(q, n))
      && s'.unread == q[Consumed(q, n)..]
      && (m == 51 || !s'.Open() || !HasFrame(s'.unread))
  {
    hide Take, Consumed, Effects, StateAfter, Pass, DrainedTls, NoOverflow, HasFrame;
    var a := Received(env, s, data);
    var q := a.unread;
    PassedNone(env.size, a.readPtr, q);
    NothingHandled(Connected);
    assert a.effects + [] == a.effects;
    PassReaches(env, a, [], a, now);
    PassedMore(env.size, a.readPtr, q, 0, q, a.readPtr);
    PassReleases(env, a, now);
    m := DrainExactly(env, a, q, 1, Pass(env, a, now), now, MAX_TLS_DRAINS);
  }

  lemma PassReleases(env: Env, s: Session, now: nat)
    requires Sound(env, s)
    ensures var k := Consumed(s.unread, MAX_PARSE_ATTEMPTS);
      && Pass(env, s, now).unread == s.unread[k..]
      && Pass(env, s, now).readPtr == Advance(env.size, s.readPtr, k)
  {}

  /** The effects of one call without TLS: those of draining what has arrived, then those of the closing pass. */
  lemma CallEffects(env: Env, s: Session, r: Request)
    requires r.ProcessOnce? && !r.tls && Sound(env, s) && Takes(env, s, r)
    ensures var s1 := Arrived(env, s, r.arrival, r.now);
      && Step(env, s, r).effects == s.effects
           + (if r.arrival.Bytes? then FeedEffects(Conn(s.track.state, s.unread), r.arrival.data) else [])
           + (if s1.Open() then Effects(Connected, Take(s1.unread, MAX_PARSE_ATTEMPTS)) else [])
      && Step(env, s, r).unread == if s1.Open() then s1.unread[Consumed(s1.unread, MAX_PARSE_ATTEMPTS)..] else s1.unread
  {
    hide Effects, StateAfter, OnFrames, Answer, Take, Consumed, Cut, Rest, DrainErrors, NoOverflow, Transmit.Send;
    assert s.effects + [] == s.effects;
    var s1 := Arrived(env, s, r.arrival, r.now);
    assert s1.effects + [] == s1.effects;
  }

  // ---- The TLS loop ------------------------------------------------------------------------------------------

  /** The loop reads on after every read that brought bytes, up to 200 reads, and stops once the connection is left. */
  lemma TlsReadsOn(env: Env, s: Session, inputs: seq<TlsInput>, i: nat, progress: bool, now: nat)
    requires Sound(env, s) && HoldsReads(env, s, inputs, i, progress, now)
    ensures i >= 200 || !s.Open() ==> TlsLoop(env, s, inputs, i, progress, now) == s
    ensures i < 200 && s.Open() && i < |inputs| && inputs[i].Got? ==>
      TlsLoop(env, s, inputs, i, progress, now)
      == TlsLoop(env, TlsGot(env, s, inputs[i].data, now), inputs, i + 1, true, now)
  {
    hide TlsGot, Pass, NoOverflow;
  }

  /**
   A read that brings nothing handles what is unread. After bytes have come the loop then reads again, but only
   up to its fifth read; if none have come it stops, and what the layer would bring next is left for later.
   */
  lemma TlsReadsAgain(env: Env, s: Session, inputs: seq<TlsInput>, i: nat, progress: bool, now: nat)
    requires Sound(env, s) && HoldsReads(env, s, inputs, i, progress, now) && s.Open() && i < 200
    requires i >= |inputs| || inputs[i].NoData?
    ensures (!progress || i >= 4) ==> TlsLoop(env, s, inputs, i, progress, now) == Pass(env, s, now)
    ensures progress && i < 4 ==>
      TlsLoop(env, s, inputs, i, progress, now) == TlsLoop(env, Pass(env, s, now), inputs, i + 1, true, now)
  {
    hide TlsGot, Pass, NoOverflow;
  }

  /** A failed read closes the connection; at most 1000 frames still unread are handled. */
  lemma TlsFailureCloses(env: Env, s: Session, inputs: seq<TlsInput>, i: nat, progress: bool, now: nat)
    requires Sound(env, s) && HoldsReads(env, s, inputs, i, progress, now) && s.Open() && i < 200
    requires i < |inputs| && inputs[i].Failed?
    ensures var s' := TlsLoop(env, s, inputs, i, progress, now);
      && s.track.log + [Moved(Closed)] <= s'.track.log && !s'.Open()
      && s'.effects == s.effects + Effects(Closed, Take(s.unread, 1000)) && s'.link == s.link
  {
    hide Take, Consumed, Effects, StateAfter, OnFrames, PassErrors, NoOverflow, Pongs;
    var ws := Take(s.unread, 1000);
    FramesAsEffects(Move(s.track, Closed), ws);
    StateTracksClose(Closed, ws);
    NoPongsOnceLeft(Closed, ws);
  }

  /** A call that finds neither an event nor TLS data makes two passes: one in the loop and one at the end. */
  lemma TlsQuietCall(env: Env, s: Session, r: Request)
    requires Sound(env, s) && Takes(env, s, r) && s.Open()
    requires r.ProcessOnce? && r.tls && r.arrival.Quiet? && r.inputs == []
    ensures var s', q := Step(env, s, r), s.unread;
      var n := if HasClose(Take(q, 1000)) then 1000 else 2000;
      s'.effects == s.effects + Effects(Connected, Take(q, n)) && s'.unread == q[Consumed(q, n)..]
  {
    hide Take, Consumed, Effects, StateAfter, Pass, NoOverflow, Transmit.Send;
    var q, s1 := s.unread, Pass(env, s, r.now);
    NothingHandled(Connected);
    assert s.effects + [] == s.effects && [] + Take(q, 1000) == Take(q, 1000);
    PassReaches(env, s, [], s, r.now);
    PassReaches(env, s, Take(q, 1000), s1, r.now);
    PassReleases(env, s, r.now);
    PassReleases(env, s1, r.now);
    StateTracksClose(Connected, Take(q, 1000));
    TakeMore(q, 1000, 1000);
    var k := Consumed(q, 1000);
    assert q[k..][Consumed(q[k..], 1000)..] == q[k + Consumed(q[k..], 1000)..];
  }

  /** A pass that finds no whole frame only counts a lone byte as an error. */
  lemma IdlePass(env: Env, s: Session, now: nat)
    requires Sound(env, s) && !HasFrame(s.unread)
    ensures Pass(env, s, now) == s.(errors := s.errors + if |s.unread| == 1 then 1 else 0)
  {
    hide ParseFrame, HasFrame;
    assert s.unread[0..] == s.unread && s.effects + [] == s.effects;
  }

  /** A call that meets nothing, on an open connection without a whole frame unread and with no ping due. */
  lemma IdleCall(env: Env, s: Session, r: Request)
    requires Sound(env, s) && Takes(env, s, r) && s.Open() && !HasFrame(s.unread)
    requires r.ProcessOnce? && r.arrival.Quiet? && !r.tls && !PingDue(s, r.now)
    ensures var s' := Step(env, s, r);
      s' == s.(errors := s.errors + (if |s.unread| == 1 then 1 else 0), beat := s'.beat)
  {
    hide Pass, HasFrame, Transmit.Send;
    IdlePass(env, s, r.now);
  }

  /**
   The parse errors counted by one whole call without TLS: only for a lone byte behind the frames, by the drain of
   what has arrived and, if the connection is still open, once more by the closing pass.
   */
  lemma CallErrorsExactly(env: Env, s: Session, r: Request)
    requires Sound(env, s) && Takes(env, s, r) && s.Open() && !HasFrame(s.unread)
    requires r.ProcessOnce? && !r.tls
    ensures var a, s' := r.arrival, Step(env, s, r);
      var q := s.unread + if a.Bytes? then a.data else [];
      var frames := |Cut(q)|;
      && s'.errors - s.errors ==
           (if |Rest(q)| != 1 || a.Eof? then 0
            else (if !a.Bytes? then 0 else if 0 < frames && frames % MAX_PARSE_ATTEMPTS == 0 then 1 else 2)
                 + (if HasClose(Cut(q)) then 0 else 1))
      && (s'.Open() ==> s'.unread == Rest(q) && !HasFrame(s'.unread))
  {
    hide Pass, HasFrame, Cut, Rest, Effects, OnFrames, Answer, DrainErrors, NoOverflow, Transmit.Send;
    var a, s1 := r.arrival, Arrived(env, s, r.arrival, r.now);
    var q := s.unread + if a.Bytes? then a.data else [];
    assert s.unread + [] == s.unread;
    NothingToCut(s.unread);
    RestIsSettled(q);
    StateTracksClose(Connected, Cut(q));
    FramesAsEffects(s.track, Cut(q));
    DrainErrorsExactly(q);
    if !a.Eof? { assert s1.unread == Rest(q); IdlePass(env, s1, r.now); }
  }

  /** Every later idle call counts the lone byte again. */
  lemma {:induction false} LoneByteRecounted(env: Env, s: Session, rs: seq<Request>)
    requires Sound(env, s) && TakesAll(env, s, rs) && s.Open() && |s.unread| == 1
    requires forall i | 0 <= i < |rs| :: rs[i].ProcessOnce? && rs[i].arrival.Quiet? && !rs[i].tls
    ensures RunAll(env, s, rs).errors == s.errors + |rs|
    decreases |rs|
  {
    hide Step, Takes;
    if rs == [] {
    } else {
      var s' := Step(env, s, rs[0]);
      LoneByte(env, s, rs[0]);
      LoneByteRecounted(env, s', rs[1..]);
    }
  }

  lemma LoneByte(env: Env, s: Session, r: Request)
    requires Sound(env, s) && Takes(env, s, r) && s.Open() && |s.unread| == 1
    requires r.ProcessOnce? && r.arrival.Quiet? && !r.tls
    ensures var s' := Step(env, s, r); s'.Open() && s'.unread == s.unread && s'.errors == s.errors + 1
  {
    hide Pass, Transmit.Send, HasFrame;
    assert !HasFrame(s.unread) by { OneByteIsNoFrame(s.unread); }
    IdlePass(env, s, r.now);
  }

  lemma OneByteIsNoFrame(q: seq<byte>)
    requires |q| == 1
    ensures !HasFrame(q)
  {}
}
