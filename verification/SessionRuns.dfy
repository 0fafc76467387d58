/**
 Series of requests on one connection: every series is a run of the life cycle, and nothing happens once the
 connection was left.
 */
module SessionRuns {
  import opened Bytes
  import opened RingBuffers
  import opened Frames
  import opened Receive
  import opened Transmit
  import opened Regions
  import opened Lifecycles
  import opened Heartbeats
  import opened Sessions

  ghost predicate TakesAll(env: Env, s: Session, rs: seq<Request>)
    requires Sound(env, s)
    decreases |rs|
  {
    rs != [] ==> Takes(env, s, rs[0]) && TakesAll(env, Step(env, s, rs[0]), rs[1..])
  }

  ghost function RunAll(env: Env, s: Session, rs: seq<Request>): (r: Session)
    requires Sound(env, s) && TakesAll(env, s, rs)
    ensures Sound(env, r)
    decreases |rs|
  {
    if rs == [] then s else RunAll(env, Step(env, s, rs[0]), rs[1..])
  }

  lemma {:induction false} RunAllKeeps(env: Env, s: Session, rs: seq<Request>)
    requires Ready(env, s) && TakesAll(env, s, rs)
    ensures Ready(env, RunAll(env, s, rs))
    decreases |rs|
  {
    hide Step, NoOverflow, LegalLog, Takes;
    if rs == [] {
    } else {
      StepKeeps(env, s, rs[0]);
      RunAllKeeps(env, Step(env, s, rs[0]), rs[1..]);
    }
  }

  lemma {:induction false} RunAllAppend(env: Env, s: Session, a: seq<Request>, b: seq<Request>)
    requires Sound(env, s) && TakesAll(env, s, a + b)
    ensures TakesAll(env, s, a) && TakesAll(env, RunAll(env, s, a), b)
    ensures RunAll(env, s, a + b) == RunAll(env, RunAll(env, s, a), b)
    decreases |a|
  {
    hide Step, Takes;
    Unfold(a, b);
    if a == [] {
    } else {
      RunAllAppend(env, Step(env, s, a[0]), a[1..], b);
    }
  }

  // ---- The life cycle ----------------------------------------------------------------------------------------

  function EventsOf(s: Session, a: Arrival): seq<PollEvent> {
    match a
    case Quiet => []
    case Eof => [Hangup]
    case Bytes(data, handshake, _) => [Readable(handshake, Cut(s.unread + data))]
  }

  /** The frames of the bounded drain, pass by pass. */
  function DrainFrames(env: Env, s: Session, now: nat, left: nat): seq<WholeFrame>
    requires Sound(env, s)
    decreases left
  {
    if left == 0 || !s.Open() then [] else
      var s', ws := Pass(env, s, now), Take(s.unread, MAX_PARSE_ATTEMPTS);
      if s'.readPtr == s.readPtr then ws else ws + DrainFrames(env, s', now, left - 1)
  }

  ghost function GotFrames(env: Env, s: Session, data: seq<byte>, now: nat): seq<WholeFrame>
    requires Sound(env, s) && Holds(env, s, data)
  {
    var s' := Received(env, s, data);
    Take(s'.unread, MAX_PARSE_ATTEMPTS) + DrainFrames(env, Pass(env, s', now), now, MAX_TLS_DRAINS)
  }

  ghost function TlsReads(
    env: Env, s: Session, inputs: seq<TlsInput>, i: nat, progress: bool, now: nat): seq<TlsRead>
    requires Sound(env, s) && HoldsReads(env, s, inputs, i, progress, now)
    decreases MAX_TLS_READS - i
  {
    if i >= MAX_TLS_READS || !s.Open() then [] else
      var ws := Take(s.unread, MAX_PARSE_ATTEMPTS);
      match ReadAt(inputs, i)
      case Got(data) =>
        [Data(GotFrames(env, s, data, now))] + TlsReads(env, TlsGot(env, s, data, now), inputs, i + 1, true, now)
      case NoData =>
        if progress && i + 1 < 5 then
          [Nothing(ws, true)] + TlsReads(env, Pass(env, s, now), inputs, i + 1, progress, now)
        else [Nothing(ws, false)]
      case Failed => [Broken(ws)]
  }

  /** The request as the life cycle sees it. */
  ghost function OpOf(env: Env, s: Session, r: Request): seq<Op>
    requires Sound(env, s) && Takes(env, s, r)
  {
    match r
    case ProcessOnce(a, tls, inputs, now, _) =>
      var s1 := Arrived(env, s, a, now);
      var rs := if tls && s1.Open() then TlsReads(env, s1, inputs, 0, false, now) else [];
      var s2 := if tls && s1.Open() then TlsLoop(env, s1, inputs, 0, false, now) else s1;
      var last := Take(s2.unread, MAX_PARSE_ATTEMPTS);
      [Process(Input(EventsOf(s, a), tls, rs, last, PingDue(Handling(env, s, r), now)))]
    case SendData(data, _, _) => [Lifecycles.Send(data != [])]
    case CloseDown => [Close]
    case SetHeartbeat(_, _) => []
  }

  ghost function OpsOf(env: Env, s: Session, rs: seq<Request>): seq<Op>
    requires Sound(env, s) && TakesAll(env, s, rs)
    decreases |rs|
  {
    if rs == [] then [] else OpOf(env, s, rs[0]) + OpsOf(env, Step(env, s, rs[0]), rs[1..])
  }

  lemma {:induction false} OnFramesAppend(t: Track, a: seq<WholeFrame>, b: seq<WholeFrame>)
    ensures OnFrames(t, a + b) == OnFrames(OnFrames(t, a), b)
    decreases |a|
  {
    hide OnFrame;
    Unfold(a, b);
    if a == [] {
    } else {
      OnFramesAppend(OnFrame(t, a[0]), a[1..], b);
    }
  }

  lemma ArrivedTracks(env: Env, s: Session, a: Arrival, now: nat)
    requires Sound(env, s) && HoldsArrival(env, s, a)
    ensures Arrived(env, s, a, now).track == OnEvents(s.track, EventsOf(s, a))
  {
    hide OnFrames, Cut, Rest, NoOverflow, Answer, Effects, DrainErrors;
    var es := EventsOf(s, a);
    if es != [] {
      assert es[1..] == [] && OnEvents(OnEvent(s.track, es[0]), []) == OnEvent(s.track, es[0]);
    }
  }

  lemma {:induction false} DrainTracks(env: Env, s: Session, now: nat, left: nat)
    requires Sound(env, s)
    ensures DrainedTls(env, s, now, left).track == OnFrames(s.track, DrainFrames(env, s, now, left))
    decreases left
  {
    hide OnFrames, Take, Consumed, Answer, Effects, PassErrors;
    if left == 0 || !s.Open() {
      assert OnFrames(s.track, []) == s.track by { NoFrames(s.track); }
    } else {
      var s', ws := Pass(env, s, now), Take(s.unread, MAX_PARSE_ATTEMPTS);
      DrainTracks(env, s', now, left - 1);
      OnFramesAppend(s.track, ws, DrainFrames(env, s', now, left - 1));
    }
  }

  lemma NoFrames(t: Track)
    ensures OnFrames(t, []) == t
  {}

  lemma GotTracks(env: Env, s: Session, data: seq<byte>, now: nat)
    requires Sound(env, s) && Holds(env, s, data)
    ensures TlsGot(env, s, data, now).track == OnFrames(s.track, GotFrames(env, s, data, now))
  {
    hide OnFrames, Take, Consumed, Answer, Effects, PassErrors, DrainFrames, NoOverflow;
    var s' := Received(env, s, data);
    DrainTracks(env, Pass(env, s', now), now, MAX_TLS_DRAINS);
    OnFramesAppend(
      s.track, Take(s'.unread, MAX_PARSE_ATTEMPTS), DrainFrames(env, Pass(env, s', now), now, MAX_TLS_DRAINS));
  }

  lemma {:induction false} TlsLoopTracks(
    env: Env, s: Session, inputs: seq<TlsInput>, i: nat, progress: bool, now: nat)
    requires Sound(env, s) && HoldsReads(env, s, inputs, i, progress, now)
    ensures TlsLoop(env, s, inputs, i, progress, now).track
         == OnTls(s.track, TlsReads(env, s, inputs, i, progress, now))
    decreases MAX_TLS_READS - i
  {
    hide OnFrames, Take, Consumed, Answer, Effects, PassErrors, GotFrames, TlsGot, NoOverflow;
    if i >= MAX_TLS_READS || !s.Open() {
    } else {
      match ReadAt(inputs, i)
      case Got(data) =>
        GotTracks(env, s, data, now);
        TlsLoopTracks(env, TlsGot(env, s, data, now), inputs, i + 1, true, now);
      case NoData =>
        if progress && i + 1 < 5 { TlsLoopTracks(env, Pass(env, s, now), inputs, i + 1, progress, now); }
      case Failed =>
    }
  }

  lemma OneOp(t: Track, op: Op)
    ensures Lifecycles.Run(t, [op]) == Lifecycles.Do(t, op)
  {
    hide Lifecycles.Do;
    assert [op][1..] == [];
    assert Lifecycles.Run(Lifecycles.Do(t, op), []) == Lifecycles.Do(t, op);
  }

  lemma StepTracks(env: Env, s: Session, r: Request)
    requires Sound(env, s) && Takes(env, s, r)
    ensures Step(env, s, r).track == Lifecycles.Run(s.track, OpOf(env, s, r))
  {
    hide OnFrames, Take, Consumed, Answer, Effects, PassErrors, Arrived, TlsLoop, TlsReads, NoOverflow,
      Transmit.Send, HoldsArrival, HoldsReads, OnEvents, OnTls, Lifecycles.Run;
    if OpOf(env, s, r) != [] { OneOp(s.track, OpOf(env, s, r)[0]); }
    match r
    case ProcessOnce(a, tls, inputs, now, _) =>
      var s1 := Arrived(env, s, a, now);
      ArrivedTracks(env, s, a, now);
      if tls && s1.Open() { TlsLoopTracks(env, s1, inputs, 0, false, now); }
    case SendData(_, _, _) =>
    case CloseDown =>
    case SetHeartbeat(_, _) => NoOps(s.track);
  }

  lemma NoOps(t: Track)
    ensures Lifecycles.Run(t, []) == t
  {}

  /** Every series of requests is a run of the life cycle, so that all its laws hold of the rings. */
  lemma {:induction false} RunTracks(env: Env, s: Session, rs: seq<Request>)
    requires Sound(env, s) && TakesAll(env, s, rs)
    ensures RunAll(env, s, rs).track == Lifecycles.Run(s.track, OpsOf(env, s, rs))
    decreases |rs|
  {
    hide Step, OpOf, Takes, Lifecycles.Run;
    if rs == [] {
      NoOps(s.track);
    } else {
      var s' := Step(env, s, rs[0]);
      StepTracks(env, s, rs[0]);
      RunTracks(env, s', rs[1..]);
      RunAppend(s.track, OpOf(env, s, rs[0]), OpsOf(env, s', rs[1..]));
    }
  }

  // ---- Once the connection was left ---------------------------------------------------------------------------

  lemma StepWhenGone(env: Env, s: Session, r: Request)
    requires Sound(env, s) && Takes(env, s, r) && s.Gone()
    ensures var s' := Step(env, s, r);
      && s'.Gone() && s'.link == s.link && s'.effects == s.effects && s'.errors == s.errors
      && s'.track == if r.CloseDown? then OnClose(s.track) else s.track
  {
    hide Drained, TlsLoop, Pass, HoldsReads, NoOverflow;
  }

  /**
   Once the connection was left, no request queues or sends a byte, delivers a message or counts an error; the
   log gains at most the move to CLOSED.
   */
  lemma {:induction false} RunWhenGone(env: Env, s: Session, rs: seq<Request>)
    requires Sound(env, s) && TakesAll(env, s, rs) && s.Gone()
    ensures var s' := RunAll(env, s, rs);
      && s'.Gone() && s'.link == s.link && s'.effects == s.effects && s'.errors == s.errors
      && (s'.track == s.track || s'.track == OnClose(s.track))
    decreases |rs|
  {
    hide Step, Takes;
    if rs == [] {
    } else {
      StepWhenGone(env, s, rs[0]);
      RunWhenGone(env, Step(env, s, rs[0]), rs[1..]);
    }
  }

  lemma MovedIsGone(s: Session)
    requires Legal(s.track)
    ensures HasMoved(s.track.log) <==> s.Gone()
  {}

  /** From the point where the log has moved, queue and wire stay as they are, whatever is requested. */
  lemma LeftForGood(env: Env, s: Session, before: seq<Request>, after: seq<Request>)
    requires Ready(env, s) && TakesAll(env, s, before + after)
    ensures TakesAll(env, s, before)
    ensures HasMoved(RunAll(env, s, before).track.log) ==>
      RunAll(env, s, before + after).link == RunAll(env, s, before).link
  {
    hide RunAll, TakesAll;
    RunAllAppend(env, s, before, after);
    RunAllKeeps(env, s, before);
    var s' := RunAll(env, s, before);
    MovedIsGone(s');
    if s'.Gone() { RunWhenGone(env, s', after); }
  }
}
