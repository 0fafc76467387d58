/**
 The life of a connection after websocket_connect (src/websocket.c:941-1229, with the guards at 566, 808,
 891 and 1565). What the socket, the TLS layer and the HTTP response bring is input; what the
 client does about it is recorded in a log.
 */
module Lifecycles {
  import opened Bytes
  import opened Receive

  /**
   The log: the handshake succeeded, the state was set to something else, a message was delivered, bytes were
   queued to send.
   */
  datatype Action = Opened | Moved(to: WsState) | Delivered(payload: seq<byte>) | Queued

  datatype Track = Track(state: WsState, log: seq<Action>)

  datatype Handshake = Pending | Accepted | Rejected

  /** One reported event: the peer hung up, or bytes arrived (as a handshake answer, or as whole frames). */
  datatype PollEvent = Hangup | Readable(handshake: Handshake, frames: seq<WholeFrame>) | OtherFilter

  /** One read of the TLS drain loop. `again`: the loop goes round once more although nothing came. */
  datatype TlsRead =
    | Data(frames: seq<WholeFrame>)
    | Nothing(frames: seq<WholeFrame>, again: bool)
    | Broken(frames: seq<WholeFrame>)

  /** Everything one call of websocket_process meets. */
  datatype Input = Input(
    events: seq<PollEvent>, tls: bool, tlsReads: seq<TlsRead>, last: seq<WholeFrame>, pingDue: bool)

  datatype Op = Process(input: Input) | Send(hasData: bool) | Close

  // ---- What each operation does -----------------------------------------------------------------------

  function Move(t: Track, to: WsState): Track { Track(to, t.log + [Moved(to)]) }

  function Record(t: Track, a: Action): Track { t.(log := t.log + [a]) }

  function OnFrame(t: Track, w: WholeFrame): Track {
    if w.IsMessage() then Record(t, Delivered(w.Body()))
    else if w.IsPing() then (if t.state == Connected then Record(t, Queued) else t)
    else if w.IsClose() then Move(t, Closing)
    else t
  }

  function OnFrames(t: Track, ws: seq<WholeFrame>): Track
    decreases |ws|
  {
    if ws == [] then t else OnFrames(OnFrame(t, ws[0]), ws[1..])
  }

  function OnEvent(t: Track, e: PollEvent): Track {
    match e
    case Hangup => if t.state == Connected || t.state == Connecting then Move(t, Closed) else t
    case OtherFilter => t
    case Readable(handshake, frames) =>
      if t.state == Connecting then
        match handshake
        case Pending => t
        case Accepted => Track(Connected, t.log + [Opened])
        case Rejected => OnClose(t)
      else if t.state == Connected then OnFrames(t, frames)
      else t
  }

  function OnEvents(t: Track, es: seq<PollEvent>): Track
    decreases |es|
  {
    if es == [] then t else OnEvents(OnEvent(t, es[0]), es[1..])
  }

  function OnTls(t: Track, rs: seq<TlsRead>): Track
    decreases |rs|
  {
    if rs == [] || t.state != Connected then t else
      match rs[0]
      case Data(frames) => OnTls(OnFrames(t, frames), rs[1..])
      case Nothing(frames, again) =>
        if again then OnTls(OnFrames(t, frames), rs[1..]) else OnFrames(t, frames)
      case Broken(frames) => OnFrames(Move(t, Closed), frames)
  }

  function OnProcess(t: Track, i: Input): Track {
    var t1 := OnEvents(t, i.events);
    var t2 := if t1.state == Connected && i.tls then OnTls(t1, i.tlsReads) else t1;
    var t3 := if t2.state == Connected then OnFrames(t2, i.last) else t2;
    if t3.state == Connected && i.pingDue then Record(t3, Queued) else t3
  }

  function OnSend(t: Track, hasData: bool): Track {
    if hasData && t.state == Connected then Record(t, Queued) else t
  }

  function OnClose(t: Track): Track { if t.state == Closed then t else Move(t, Closed) }

  function Do(t: Track, op: Op): Track {
    match op
    case Process(input) => OnProcess(t, input)
    case Send(hasData) => OnSend(t, hasData)
    case Close => OnClose(t)
  }

  function Run(t: Track, ops: seq<Op>): Track
    decreases |ops|
  {
    if ops == [] then t else Run(Do(t, ops[0]), ops[1..])
  }

  /** websocket_connect has returned 0. */
  const START: Track := Track(Connecting, [])

  // ---- What every run keeps -----------------------------------------------------------------------------

  ghost predicate HasMoved(log: seq<Action>) { exists i | 0 <= i < |log| :: log[i].Moved? }

  /** The state is what the log says, and the log obeys the life cycle. */
  ghost predicate Legal(t: Track) {
    && (t.state == Connecting <==> Opened !in t.log && !HasMoved(t.log))
    && (t.state == Connected <==> Opened in t.log && !HasMoved(t.log))
    && LegalLog(t.log)
  }

  /** The connection opens at most once, not after it was left; nothing is delivered before, nothing queued after. */
  ghost predicate LegalLog(log: seq<Action>) {
    && (forall i, j | 0 <= i < j < |log| && log[j].Opened? :: !log[i].Opened? && !log[i].Moved?)
    && (forall i, j | 0 <= i < j < |log| && log[j].Queued? :: !log[i].Moved?)
    && (forall j | 0 <= j < |log| && (log[j].Delivered? || log[j].Queued?) :: Opened in log[..j])
  }

  lemma OneMore(log: seq<Action>, a: Action)
    requires LegalLog(log)
    requires a.Opened? ==> Opened !in log && !HasMoved(log)
    requires a.Queued? ==> !HasMoved(log)
    requires a.Queued? || a.Delivered? ==> Opened in log
    ensures LegalLog(log + [a])
    ensures HasMoved(log + [a]) <==> HasMoved(log) || a.Moved?
    ensures Opened in log + [a] <==> Opened in log || a.Opened?
  {
    var log' := log + [a];
    forall j | 0 <= j < |log'| && (log'[j].Delivered? || log'[j].Queued?) ensures Opened in log'[..j] {
      assert log'[..j] == log[..j];
    }
    if HasMoved(log) {
      var i :| 0 <= i < |log| && log[i].Moved?;
      assert log'[i].Moved?;
    }
    if a.Moved? { assert log'[|log|].Moved?; }
  }

  /** The connection has been open at some time. */
  ghost predicate WasOpen(t: Track) { Opened in t.log }

  lemma MoveKeeps(t: Track, to: WsState)
    requires Legal(t) && (to == Closing || to == Closed)
    ensures Legal(Move(t, to)) && (WasOpen(t) ==> WasOpen(Move(t, to)))
  {
    OneMore(t.log, Moved(to));
  }

  lemma {:induction false} FramesKeep(t: Track, ws: seq<WholeFrame>)
    requires Legal(t) && WasOpen(t)
    ensures Legal(OnFrames(t, ws)) && WasOpen(OnFrames(t, ws))
    decreases |ws|
  {
    if ws == [] {
    } else {
      var w := ws[0];
      if w.IsMessage() {
        OneMore(t.log, Delivered(w.Body()));
      } else if w.IsPing() {
        if t.state == Connected { OneMore(t.log, Queued); }
      } else if w.IsClose() {
        MoveKeeps(t, Closing);
      }
      FramesKeep(OnFrame(t, w), ws[1..]);
    }
  }

  lemma EventKeeps(t: Track, e: PollEvent)
    requires Legal(t)
    ensures Legal(OnEvent(t, e))
  {
    if t.state == Connecting || t.state == Connected { MoveKeeps(t, Closed); }
    if t.state == Connecting { OneMore(t.log, Opened); }
    if t.state == Connected && e.Readable? { FramesKeep(t, e.frames); }
  }

  lemma {:induction false} EventsKeep(t: Track, es: seq<PollEvent>)
    requires Legal(t)
    ensures Legal(OnEvents(t, es))
    decreases |es|
  {
    if es == [] {
    } else {
      EventKeeps(t, es[0]);
      EventsKeep(OnEvent(t, es[0]), es[1..]);
    }
  }

  lemma {:induction false} TlsKeeps(t: Track, rs: seq<TlsRead>)
    requires Legal(t)
    ensures Legal(OnTls(t, rs))
    decreases |rs|
  {
    if rs == [] || t.state != Connected {
    } else {
      match rs[0]
      case Data(frames) =>
        FramesKeep(t, frames);
        TlsKeeps(OnFrames(t, frames), rs[1..]);
      case Nothing(frames, again) =>
        FramesKeep(t, frames);
        TlsKeeps(OnFrames(t, frames), rs[1..]);
      case Broken(frames) =>
        MoveKeeps(t, Closed);
        FramesKeep(Move(t, Closed), frames);
    }
  }

  lemma OpKeeps(t: Track, op: Op)
    requires Legal(t)
    ensures Legal(Do(t, op))
  {
    match op
    case Process(i) =>
      EventsKeep(t, i.events);
      var t1 := OnEvents(t, i.events);
      TlsKeeps(t1, i.tlsReads);
      var t2 := if t1.state == Connected && i.tls then OnTls(t1, i.tlsReads) else t1;
      if t2.state == Connected { FramesKeep(t2, i.last); }
      var t3 := if t2.state == Connected then OnFrames(t2, i.last) else t2;
      if t3.state == Connected { OneMore(t3.log, Queued); }
    case Send(hasData) => if t.state == Connected { OneMore(t.log, Queued); }
    case Close => MoveKeeps(t, Closed);
  }

  lemma {:induction false} RunKeeps(t: Track, ops: seq<Op>)
    requires Legal(t)
    ensures Legal(Run(t, ops))
    decreases |ops|
  {
    if ops == [] {
    } else {
      OpKeeps(t, ops[0]);
      RunKeeps(Do(t, ops[0]), ops[1..]);
    }
  }

  /**
   Over every run after a connect, whatever the socket brings: the connection is entered only out of CONNECTING
   and never again, no message is delivered before that, and nothing is queued for sending once it was left.
   */
  lemma LifecycleHolds(ops: seq<Op>)
    ensures var t := Run(START, ops);
      && LegalLog(t.log)
      && (t.state == Connected <==> Opened in t.log && !HasMoved(t.log))
  {
    RunKeeps(START, ops);
  }

  /** The log entries of what handling frames caused. */
  function ToActions(es: seq<Effect>): seq<Action> {
    if es == [] then [] else ToAction(es[0]) + ToActions(es[1..])
  }

  function ToAction(e: Effect): seq<Action> {
    match e
    case Deliver(payload) => [Delivered(payload)]
    case SendPong(_) => [Queued]
    case NotePong => []
    case Shut => [Moved(Closing)]
  }

  lemma {:induction false} ToActionsAppend(a: seq<Effect>, b: seq<Effect>)
    ensures ToActions(a + b) == ToActions(a) + ToActions(b)
  {
    Unfold(a, b);
    if a == [] {
    } else {
      ToActionsAppend(a[1..], b);
      Assoc(ToAction(a[0]), ToActions(a[1..]), ToActions(b));
    }
  }

  lemma FrameAsEffects(t: Track, w: WholeFrame)
    ensures OnFrame(t, w) == Track(NextState(t.state, w), t.log + ToActions(EffectOf(t.state, w)))
  {
    var es := EffectOf(t.state, w);
    if es == [] {
      assert t.log + [] == t.log;
    } else {
      assert es[1..] == [];
      assert ToActions(es) == ToAction(es[0]) + [] == ToAction(es[0]);
      assert t.log + [] == t.log;
    }
  }

  /** The log of a batch of frames is the log of what the receive path did with them. */
  lemma {:induction false} FramesAsEffects(t: Track, ws: seq<WholeFrame>)
    ensures OnFrames(t, ws) == Track(StateAfter(t.state, ws), t.log + ToActions(Effects(t.state, ws)))
    decreases |ws|
  {
    hide OnFrame, EffectOf, NextState;
    if ws == [] {
      assert t.log + [] == t.log;
    } else {
      var w, st := ws[0], NextState(t.state, ws[0]);
      FrameAsEffects(t, w);
      FramesAsEffects(OnFrame(t, w), ws[1..]);
      ToActionsAppend(EffectOf(t.state, w), Effects(st, ws[1..]));
      Assoc(t.log, ToActions(EffectOf(t.state, w)), ToActions(Effects(st, ws[1..])));
    }
  }

  function DeliveredIn(log: seq<Action>): seq<seq<byte>> {
    if log == [] then [] else
      DeliveredIn(log[..|log| - 1]) + (if log[|log| - 1].Delivered? then [log[|log| - 1].payload] else [])
  }

  lemma DeliveredSnoc(log: seq<Action>, a: Action)
    ensures DeliveredIn(log + [a]) == DeliveredIn(log) + (if a.Delivered? then [a.payload] else [])
  {
    assert (log + [a])[..|log|] == log;
  }

  lemma FrameMatchesReceive(t: Track, w: WholeFrame)
    ensures OnFrame(t, w).state == NextState(t.state, w)
    ensures DeliveredIn(OnFrame(t, w).log) == DeliveredIn(t.log) + Message(w)
  {
    hide DeliveredIn;
    if OnFrame(t, w).log == t.log {
      assert DeliveredIn(t.log) + [] == DeliveredIn(t.log);
    } else {
      DeliveredSnoc(t.log, OnFrame(t, w).log[|t.log|]);
    }
  }

  /** The log of a batch of frames is the one the receive path produces: same final state, same messages in order. */
  lemma {:induction false} FramesMatchReceive(t: Track, ws: seq<WholeFrame>)
    ensures OnFrames(t, ws).state == StateAfter(t.state, ws)
    ensures DeliveredIn(OnFrames(t, ws).log) == DeliveredIn(t.log) + Messages(ws)
    decreases |ws|
  {
    if ws == [] {
    } else {
      var w := ws[0];
      var t' := OnFrame(t, w);
      FrameMatchesReceive(t, w);
      hide DeliveredIn, OnFrame, NextState, Message;
      FramesMatchReceive(t', ws[1..]);
      Assoc(DeliveredIn(t.log), Message(w), Messages(ws[1..]));
    }
  }

  // ---- What decides the state ---------------------------------------------------------------------------------

  /** Whatever happened before, a close call ends in CLOSED. */
  lemma CloseCloses(ops: seq<Op>)
    ensures Run(START, ops + [Close]).state == Closed
  {
    RunAppend(START, ops, [Close]);
    var t := Run(START, ops);
    assert [Close][1..] == [];
    assert Run(t, [Close]) == Run(Do(t, Close), []);
  }

  /** The peer hanging up ends every connection in CLOSED, except one that is closing, which stays so. */
  lemma HangupCloses(ops: seq<Op>, tls: bool, rs: seq<TlsRead>, last: seq<WholeFrame>, due: bool)
    ensures Run(START, ops + [Process(Input([Hangup], tls, rs, last, due))]).state
         == if Run(START, ops).state == Closing then Closing else Closed
  {
    var op := Process(Input([Hangup], tls, rs, last, due));
    RunAppend(START, ops, [op]);
    var t := Run(START, ops);
    var t' := OnEvent(t, Hangup);
    assert [op][1..] == [] && [Hangup][1..] == [];
    assert OnEvents(t, [Hangup]) == OnEvents(t', []) == t';
    assert Run(t, [op]) == Run(Do(t, op), []);
  }

  /** Nothing is decided about the handshake yet. */
  predicate Undecided(e: PollEvent) { e.OtherFilter? || (e.Readable? && e.handshake == Pending) }

  /**
   While the connection is being opened, the first event that decides does so for good: an accepted answer opens
   it, a rejected one or a hangup closes it.
   */
  lemma {:induction false} FirstEventDecides(t: Track, es: seq<PollEvent>, k: nat)
    requires t.state == Connecting && k < |es|
    requires (forall i | 0 <= i < k :: Undecided(es[i])) && !Undecided(es[k])
    ensures OnEvents(t, es) ==
      if es[k].Readable? && es[k].handshake == Accepted then
        OnEvents(Track(Connected, t.log + [Opened]), es[k + 1..])
      else Track(Closed, t.log + [Moved(Closed)])
    decreases k
  {
    hide OnFrames;
    if k == 0 {
      if OnEvent(t, es[0]).state == Closed { EventsWhenLeft(OnEvent(t, es[0]), es[1..]); }
    } else {
      assert OnEvent(t, es[0]) == t;
      assert es[1..][k - 1] == es[k] && es[1..][k..] == es[k + 1..];
      FirstEventDecides(t, es[1..], k - 1);
    }
  }

  /** If no event decides, the connection is still being opened and nothing has happened. */
  lemma {:induction false} NoEventDecides(t: Track, es: seq<PollEvent>)
    requires t.state == Connecting && forall i | 0 <= i < |es| :: Undecided(es[i])
    ensures OnEvents(t, es) == t
    decreases |es|
  {
    if es == [] {
    } else {
      assert OnEvent(t, es[0]) == t;
      NoEventDecides(t, es[1..]);
    }
  }

  // ---- The log only grows -------------------------------------------------------------------------------------

  lemma FramesGrow(t: Track, ws: seq<WholeFrame>)
    ensures t.log <= OnFrames(t, ws).log
  {
    FramesAsEffects(t, ws);
  }

  lemma {:induction false} EventsGrow(t: Track, es: seq<PollEvent>)
    ensures t.log <= OnEvents(t, es).log
    decreases |es|
  {
    hide OnFrames;
    if es == [] {
    } else {
      if es[0].Readable? { FramesGrow(t, es[0].frames); }
      EventsGrow(OnEvent(t, es[0]), es[1..]);
    }
  }

  lemma {:induction false} TlsGrows(t: Track, rs: seq<TlsRead>)
    ensures t.log <= OnTls(t, rs).log
    decreases |rs|
  {
    hide OnFrames;
    if rs == [] || t.state != Connected {
    } else {
      var t' := if rs[0].Broken? then Move(t, Closed) else t;
      FramesGrow(t', rs[0].frames);
      TlsGrows(OnFrames(t, rs[0].frames), rs[1..]);
      FramesGrow(t, rs[0].frames);
    }
  }

  lemma {:induction false} RunGrows(t: Track, ops: seq<Op>)
    ensures t.log <= Run(t, ops).log
    decreases |ops|
  {
    hide OnFrames, OnEvents, OnTls;
    if ops == [] {
    } else {
      var op := ops[0];
      if op.Process? {
        var i := op.input;
        var t1 := OnEvents(t, i.events);
        EventsGrow(t, i.events);
        TlsGrows(t1, i.tlsReads);
        FramesGrow(if t1.state == Connected && i.tls then OnTls(t1, i.tlsReads) else t1, i.last);
      }
      RunGrows(Do(t, op), ops[1..]);
    }
  }

  // ---- When CLOSED is final ---------------------------------------------------------------------------------

  lemma {:induction false} EventsWhenLeft(t: Track, es: seq<PollEvent>)
    requires t.state == Closing || t.state == Closed
    ensures OnEvents(t, es) == t
    decreases |es|
  {
    if es == [] {
    } else {
      EventsWhenLeft(t, es[1..]);
    }
  }

  /** Once the connection was left, a call changes nothing, except that closing turns CLOSING into CLOSED. */
  lemma CallWhenLeft(t: Track, op: Op)
    requires t.state == Closing || t.state == Closed
    ensures Do(t, op) == if op.Close? && t.state == Closing then Move(t, Closed) else t
  {
    if op.Process? { EventsWhenLeft(t, op.input.events); }
  }

  lemma {:induction false} RunWhenClosed(t: Track, ops: seq<Op>)
    requires t.state == Closed
    ensures Run(t, ops) == t
    decreases |ops|
  {
    if ops == [] {
    } else {
      CallWhenLeft(t, ops[0]);
      RunWhenClosed(t, ops[1..]);
    }
  }

  lemma {:induction false} RunAppend(t: Track, a: seq<Op>, b: seq<Op>)
    ensures Run(t, a + b) == Run(Run(t, a), b)
    decreases |a|
  {
    Unfold(a, b);
    if a == [] {
    } else {
      RunAppend(Do(t, a[0]), a[1..], b);
    }
  }

  /** Between calls CLOSED is final: no further call changes the state or does anything. */
  lemma ClosedIsFinal(before: seq<Op>, after: seq<Op>)
    requires Run(START, before).state == Closed
    ensures Run(START, before + after) == Run(START, before)
  {
    RunAppend(START, before, after);
    RunWhenClosed(Run(START, before), after);
  }

  /** How a TLS drain ends: by a broken layer with these frames still buffered, or otherwise. */
  datatype TlsEnd = Unbroken | BrokenHolding(frames: seq<WholeFrame>)

  function EndOfTls(t: Track, rs: seq<TlsRead>): TlsEnd
    decreases |rs|
  {
    if rs == [] || t.state != Connected then Unbroken else
      match rs[0]
      case Data(frames) => EndOfTls(OnFrames(t, frames), rs[1..])
      case Nothing(frames, again) => if again then EndOfTls(OnFrames(t, frames), rs[1..]) else Unbroken
      case Broken(frames) => BrokenHolding(frames)
  }

  /** Handling frames never sets the state to CLOSED. */
  lemma {:induction false} FramesDoNotClose(t: Track, ws: seq<WholeFrame>)
    ensures Moved(Closed) in OnFrames(t, ws).log <==> Moved(Closed) in t.log
    ensures OnFrames(t, ws).state == if HasClose(ws) then Closing else t.state
    decreases |ws|
  {
    FramesMatchReceive(t, ws);
    StateTracksClose(t.state, ws);
    if ws == [] {
    } else {
      FramesDoNotClose(OnFrame(t, ws[0]), ws[1..]);
    }
  }

  lemma {:induction false} TlsEndsClosed(t: Track, rs: seq<TlsRead>)
    requires t.state == Connected && Moved(Closed) !in t.log
    ensures var e, t' := EndOfTls(t, rs), OnTls(t, rs);
      && (Moved(Closed) in t'.log <==> e.BrokenHolding?)
      && (e.BrokenHolding? ==> t'.state == if HasClose(e.frames) then Closing else Closed)
      && (e.Unbroken? ==> t'.state == Connected || t'.state == Closing)
    decreases |rs|
  {
    if rs == [] {
    } else {
      var r := rs[0];
      FramesDoNotClose(t, r.frames);
      var t' := OnFrames(t, r.frames);
      if r.Broken? {
        FramesDoNotClose(Move(t, Closed), r.frames);
      } else if t'.state == Connected {
        TlsEndsClosed(t', rs[1..]);
      }
    }
  }

  /** The call meets a TLS break while a close frame is buffered. */
  ghost predicate BreaksHoldingClose(t: Track, op: Op) {
    && op.Process? && op.input.tls
    && var t1 := OnEvents(t, op.input.events);
    && t1.state == Connected
    && var e := EndOfTls(t1, op.input.tlsReads);
    && e.BrokenHolding? && HasClose(e.frames)
  }

  lemma {:induction false} EventsClose(t: Track, es: seq<PollEvent>)
    requires Moved(Closed) !in t.log && t.state != Closed
    ensures var t' := OnEvents(t, es); Moved(Closed) in t'.log <==> t'.state == Closed
    decreases |es|
  {
    if es == [] {
    } else {
      var t' := OnEvent(t, es[0]);
      if t.state == Connected && es[0].Readable? { FramesDoNotClose(t, es[0].frames); }
      if t'.state == Closed {
        EventsWhenLeft(t', es[1..]);
      } else {
        EventsClose(t', es[1..]);
      }
    }
  }

  /** A call that sets CLOSED for the first time also ends in CLOSED, unless it breaks holding a close frame. */
  lemma CallEndsClosedIff(t: Track, op: Op)
    requires Moved(Closed) !in t.log && t.state != Closed
    ensures BreaksHoldingClose(t, op) ==> Moved(Closed) in Do(t, op).log && Do(t, op).state == Closing
    ensures Moved(Closed) in Do(t, op).log ==> (Do(t, op).state == Closed <==> !BreaksHoldingClose(t, op))
    ensures Do(t, op).state == Closed ==> Moved(Closed) in Do(t, op).log
  {
    if op.Process? {
      var i := op.input;
      var t1 := OnEvents(t, i.events);
      EventsClose(t, i.events);
      if t1.state == Connected { TlsEndsClosed(t1, i.tlsReads); }
      var t2 := if t1.state == Connected && i.tls then OnTls(t1, i.tlsReads) else t1;
      FramesDoNotClose(t2, i.last);
    }
  }

  /** Some call of the run broke holding a close frame, and none after it was a close. */
  ghost predicate LeftClosing(ops: seq<Op>, k: nat)
    requires k <= |ops|
  {
    exists i | 0 <= i < k ::
      BreaksHoldingClose(Run(START, ops[..i]), ops[i]) && forall j | i < j < k :: !ops[j].Close?
  }

  lemma RunStep(ops: seq<Op>, k: nat)
    requires k < |ops|
    ensures Run(START, ops[..k + 1]) == Do(Run(START, ops[..k]), ops[k])
  {
    assert ops[..k + 1] == ops[..k] + [ops[k]];
    RunAppend(START, ops[..k], [ops[k]]);
    var t := Run(START, ops[..k]);
    assert [ops[k]][1..] == [];
    assert Run(t, [ops[k]]) == Run(Do(t, ops[k]), []);
  }

  lemma LeftClosingStep(ops: seq<Op>, k: nat)
    requires 0 < k <= |ops|
    ensures LeftClosing(ops, k) <==>
      || BreaksHoldingClose(Run(START, ops[..k - 1]), ops[k - 1])
      || (LeftClosing(ops, k - 1) && !ops[k - 1].Close?)
  {
    hide Run, BreaksHoldingClose;
    if LeftClosing(ops, k - 1) && !ops[k - 1].Close? {
      var i :| 0 <= i < k - 1 && BreaksHoldingClose(Run(START, ops[..i]), ops[i])
               && forall j | i < j < k - 1 :: !ops[j].Close?;
    }
  }

  lemma {:induction false} ClosedAfter(ops: seq<Op>, k: nat)
    requires k <= |ops|
    ensures var t := Run(START, ops[..k]);
      && (LeftClosing(ops, k) ==> Moved(Closed) in t.log)
      && (t.state == Closed ==> Moved(Closed) in t.log)
      && (Moved(Closed) in t.log ==> (t.state != Closed <==> LeftClosing(ops, k)))
  {
    if k == 0 {
      assert ops[..0] == [];
    } else {
      hide Do, LeftClosing, BreaksHoldingClose;
      var t, op := Run(START, ops[..k - 1]), ops[k - 1];
      ClosedAfter(ops, k - 1);
      RunStep(ops, k - 1);
      LeftClosingStep(ops, k);
      if Moved(Closed) in t.log {
        LeftFor(ops, k - 1);
        CallWhenLeft(t, op);
        BreaksOnlyOpen(t, op);
      } else {
        CallEndsClosedIff(t, op);
      }
    }
  }

  lemma LeftFor(ops: seq<Op>, k: nat)
    requires k <= |ops| && Moved(Closed) in Run(START, ops[..k]).log
    ensures var t := Run(START, ops[..k]); t.state == Closing || t.state == Closed
  {
    hide Run;
    var t := Run(START, ops[..k]);
    RunKeeps(START, ops[..k]);
    var i :| 0 <= i < |t.log| && t.log[i] == Moved(Closed);
    assert HasMoved(t.log);
  }

  /**
   After any run that has set CLOSED at some point, the state a caller sees is CLOSED, unless a call broke
   holding a close frame and no later call was a close.
   */
  lemma ClosedSeenIff(ops: seq<Op>)
    requires Moved(Closed) in Run(START, ops).log
    ensures Run(START, ops).state == Closed <==> !LeftClosing(ops, |ops|)
  {
    assert ops[..|ops|] == ops;
    ClosedAfter(ops, |ops|);
  }

  /** The shortest such run: the handshake succeeds, then the TLS layer breaks with a close frame buffered. */
  lemma ClosedThenClosing(w: WholeFrame)
    requires w.IsClose()
    ensures var run := [Process(Input([Readable(Accepted, [])], true, [Broken([w])], [], false))];
      Run(START, run) == Track(Closing, [Opened, Moved(Closed), Moved(Closing)])
  {
    var es, i := [Readable(Accepted, [])], Input([Readable(Accepted, [])], true, [Broken([w])], [], false);
    var t1 := Track(Connected, [Opened]);
    assert es[1..] == [] && [w][1..] == [] && [Process(i)][1..] == [];
    assert OnEvents(START, es) == OnEvents(t1, []) == t1;
    var t2 := Move(t1, Closed);
    assert OnFrames(t2, [w]) == OnFrames(Move(t2, Closing), []) == Move(t2, Closing);
    assert OnTls(t1, [Broken([w])]) == Move(t2, Closing);
    assert Run(START, [Process(i)]) == Run(OnProcess(START, i), []);
  }

  lemma BreaksOnlyOpen(t: Track, op: Op)
    requires t.state == Closing || t.state == Closed
    ensures !BreaksHoldingClose(t, op)
  {
    if op.Process? { EventsWhenLeft(t, op.input.events); }
  }

}
