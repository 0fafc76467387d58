/**
 One connection as a value (src/websocket.c:890-1229): what a call of websocket_process, websocket_send or
 websocket_close, or a new heartbeat setting, does to it, and what every series of calls guarantees. Each client
 polls a socket of its own, so that at most one read event comes with a call.
 */
module Sessions {
  import opened Bytes
  import opened RingBuffers
  import opened Frames
  import opened Receive
  import opened Transmit
  import opened Regions
  import opened Lifecycles
  import opened Heartbeats

  /** What stays the same: the size of the receive ring, the room of the transmit ring, and what chance decides. */
  datatype Env = Env(size: nat, capacity: nat, choices: nat -> PongChoice)

  /**
   The life-cycle log, the unread bytes and where they start in the ring, what the handled frames caused, the
   parse errors counted, the transmit side, and the heartbeat.
   */
  datatype Session = Session(
    track: Track, unread: seq<byte>, readPtr: nat, effects: seq<Effect>, errors: nat,
    link: Link, config: Config, enabled: bool, beat: Beat)
  {
    predicate Open() { track.state == Connected }
    ghost predicate Gone() { track.state == Closing || track.state == Closed }
  }

  /**
   What a call of websocket_process meets on the socket: nothing, the end of the connection, or bytes. While
   the connection is being opened, bytes are judged as the answer to the handshake, of which an accepted one
   takes `headerLen` bytes.
   */
  datatype Arrival = Quiet | Eof | Bytes(data: seq<byte>, handshake: Handshake, headerLen: nat)

  /** What one read from the TLS layer brings; a layer that has nothing more keeps bringing nothing. */
  datatype TlsInput = Got(data: seq<byte>) | NoData | Failed

  datatype Request =
    | ProcessOnce(arrival: Arrival, tls: bool, inputs: seq<TlsInput>, now: nat, accept: nat)
    | SendData(data: seq<byte>, isText: bool, accept: nat)
    | CloseDown
    | SetHeartbeat(config: Config, enable: bool)

  const MAX_TLS_READS: nat := 200
  const MAX_TLS_DRAINS: nat := 50

  /** The unread bytes lie in one piece, and the transmit ring holds no more than it can. */
  predicate Sound(env: Env, s: Session) {
    && s.readPtr < env.size && |s.unread| < env.size && s.readPtr + |s.unread| <= env.size
    && |s.link.queue| <= env.capacity
  }

  /** In addition the log obeys the life cycle, and no unread frame declares an overflowing length. */
  ghost predicate Ready(env: Env, s: Session) {
    Sound(env, s) && Legal(s.track) && (s.Open() ==> NoOverflow(s.unread))
  }

  // ---- The steps of a call --------------------------------------------------------------------------------

  /** The heartbeat after the effects of some frames, all noticed at one time. */
  function HeardPong(c: Config, b: Beat, es: seq<Effect>, now: nat): Beat {
    if NotePong in es then Next(c, b, Heartbeats.Pong(now)) else b
  }

  /** Every message is delivered, every ping on an open connection answered, every pong noted. */
  function Handled(env: Env, s: Session, ws: seq<WholeFrame>, now: nat): (r: Session)
    requires |s.link.queue| <= env.capacity
    ensures |r.link.queue| <= env.capacity
  {
    var es := Effects(s.track.state, ws);
    s.(track := OnFrames(s.track, ws),
       effects := s.effects + es,
       link := Answer(s.link, env.capacity, env.choices, |Pongs(s.effects)|, Pongs(es)),
       beat := HeardPong(s.config, s.beat, es, now))
  }

  function Released(env: Env, s: Session, k: nat): (r: Session)
    requires Sound(env, s) && k <= |s.unread|
    ensures Sound(env, r)
  {
    s.(unread := s.unread[k..], readPtr := Advance(env.size, s.readPtr, k))
  }

  /** One process_frames pass. */
  function Pass(env: Env, s: Session, now: nat): (r: Session)
    requires Sound(env, s)
    ensures Sound(env, r)
  {
    var n, q := MAX_PARSE_ATTEMPTS, s.unread;
    Handled(env, Released(env, s, Consumed(q, n)).(errors := s.errors + PassErrors(q)), Take(q, n), now)
  }

  /** Passes until nothing moves, as after a read event. */
  function Drained(env: Env, s: Session, now: nat): (r: Session)
    requires Sound(env, s)
    ensures Sound(env, r)
  {
    var q := s.unread;
    RestIsSettled(q);
    Handled(env, Released(env, s, |q| - |Rest(q)|).(errors := s.errors + DrainErrors(q)), Cut(q), now)
  }

  /** The bytes fit behind the unread ones, short of a full ring and of the end of the array. */
  ghost predicate Holds(env: Env, s: Session, data: seq<byte>) {
    && s.readPtr + |s.unread| + |data| <= env.size && |s.unread| + |data| < env.size
    && (s.Open() ==> NoOverflow(s.unread + data))
  }

  ghost function Received(env: Env, s: Session, data: seq<byte>): (r: Session)
    requires Sound(env, s) && Holds(env, s, data)
    ensures Sound(env, r)
  {
    s.(unread := s.unread + data)
  }

  predicate Opens(s: Session, a: Arrival) {
    a.Bytes? && s.track.state == Connecting && a.handshake == Accepted
  }

  ghost predicate HoldsArrival(env: Env, s: Session, a: Arrival) {
    && (a.Bytes? ==> Holds(env, s, a.data))
    && (Opens(s, a) ==>
          a.headerLen <= |s.unread| + |a.data| && NoOverflow((s.unread + a.data)[a.headerLen..]))
  }

  /** The event of one call. */
  ghost function Arrived(env: Env, s: Session, a: Arrival, now: nat): (r: Session)
    requires Sound(env, s) && HoldsArrival(env, s, a)
    ensures Sound(env, r)
  {
    match a
    case Quiet => s
    case Eof => s.(track := OnEvent(s.track, Hangup))
    case Bytes(data, handshake, headerLen) =>
      var s' := Received(env, s, data);
      if s.Open() then Drained(env, s', now)
      else
        var t := OnEvent(s.track, Readable(handshake, []));
        Released(env, s', if Opens(s, a) then headerLen else 0).(track := t)
  }

  /** The bounded drain after a TLS read, once its first pass is done. */
  function DrainedTls(env: Env, s: Session, now: nat, left: nat): (r: Session)
    requires Sound(env, s)
    ensures Sound(env, r)
    decreases left
  {
    if left == 0 || !s.Open() then s else
      var s' := Pass(env, s, now);
      if s'.readPtr == s.readPtr then s' else DrainedTls(env, s', now, left - 1)
  }

  function ReadAt(inputs: seq<TlsInput>, i: nat): TlsInput { if i < |inputs| then inputs[i] else NoData }

  ghost predicate HoldsReads(env: Env, s: Session, inputs: seq<TlsInput>, i: nat, progress: bool, now: nat)
    requires Sound(env, s)
    decreases MAX_TLS_READS - i
  {
    i < MAX_TLS_READS && s.Open() ==>
      match ReadAt(inputs, i)
      case Got(data) =>
        Holds(env, s, data) && HoldsReads(env, TlsGot(env, s, data, now), inputs, i + 1, true, now)
      case NoData => progress && i + 1 < 5 ==> HoldsReads(env, Pass(env, s, now), inputs, i + 1, progress, now)
      case Failed => true
  }

  ghost function TlsGot(env: Env, s: Session, data: seq<byte>, now: nat): (r: Session)
    requires Sound(env, s) && Holds(env, s, data)
    ensures Sound(env, r)
  {
    DrainedTls(env, Pass(env, Received(env, s, data), now), now, MAX_TLS_DRAINS)
  }

  function TlsFailed(env: Env, s: Session, now: nat): (r: Session)
    requires Sound(env, s)
    ensures Sound(env, r)
  {
    Pass(env, s.(track := Move(s.track, Closed)), now)
  }

  /** The TLS loop from its read number i on. */
  ghost function TlsLoop(env: Env, s: Session, inputs: seq<TlsInput>, i: nat, progress: bool, now: nat): (r: Session)
    requires Sound(env, s) && HoldsReads(env, s, inputs, i, progress, now)
    ensures Sound(env, r)
    decreases MAX_TLS_READS - i
  {
    if i >= MAX_TLS_READS || !s.Open() then s else
      match ReadAt(inputs, i)
      case Got(data) => TlsLoop(env, TlsGot(env, s, data, now), inputs, i + 1, true, now)
      case NoData =>
        var s' := Pass(env, s, now);
        if progress && i + 1 < 5 then TlsLoop(env, s', inputs, i + 1, progress, now) else s'
      case Failed => TlsFailed(env, s, now)
  }

  predicate PingDue(s: Session, now: nat) { s.Open() && s.enabled && Due(s.config, s.beat, now) }

  /** The heartbeat check at the end of a call, with whether a ping would find room. */
  function Checked(env: Env, s: Session, now: nat): Event
    requires Sound(env, s)
  {
    Check(now, Succeeds(s.link, env.capacity, Ping))
  }

  function Beaten(env: Env, s: Session, now: nat, accept: nat): (r: Session)
    requires Sound(env, s)
    ensures Sound(env, r)
  {
    s.(track := if PingDue(s, now) then Record(s.track, Queued) else s.track,
       link := if PingDue(s, now) then Transmit.Send(s.link, env.capacity, Ping, accept) else s.link,
       beat := if s.Open() && s.enabled then Next(s.config, s.beat, Checked(env, s, now)) else s.beat)
  }

  /** The call up to the heartbeat check: the event, the TLS loop, and a closing pass while the connection is open. */
  ghost function Handling(env: Env, s: Session, r: Request): (s': Session)
    requires r.ProcessOnce? && Sound(env, s) && Takes(env, s, r)
    ensures Sound(env, s')
  {
    var s1 := Arrived(env, s, r.arrival, r.now);
    var s2 := if r.tls && s1.Open() then TlsLoop(env, s1, r.inputs, 0, false, r.now) else s1;
    if s2.Open() then Pass(env, s2, r.now) else s2
  }

  ghost function TimesOut(env: Env, s: Session, r: Request): bool
    requires r.ProcessOnce? && Sound(env, s) && Takes(env, s, r)
  {
    var s' := Handling(env, s, r);
    s'.Open() && s'.enabled && Fires(s'.config, s'.beat, Checked(env, s', r.now))
  }

  /** What arrives with the request fits the receive ring, and what is sent has a length. */
  ghost predicate Takes(env: Env, s: Session, r: Request)
    requires Sound(env, s)
  {
    match r
    case ProcessOnce(a, tls, inputs, now, _) =>
      HoldsArrival(env, s, a) && (tls ==> HoldsReads(env, Arrived(env, s, a, now), inputs, 0, false, now))
    case SendData(data, _, _) => |data| + 14 < TWO_64
    case _ => true
  }

  function AsFrame(data: seq<byte>, isText: bool): Outgoing { if isText then Text(data) else Binary(data) }

  predicate Posts(s: Session, r: Request) { r.SendData? && s.Open() && r.data != [] }

  /** What websocket_send returns. */
  ghost function Returned(env: Env, s: Session, r: Request): int
    requires r.SendData? && Sound(env, s) && Takes(env, s, r)
  {
    if Posts(s, r) && Succeeds(s.link, env.capacity, AsFrame(r.data, r.isText)) then 0 else -1
  }

  ghost function Step(env: Env, s: Session, r: Request): (s': Session)
    requires Sound(env, s) && Takes(env, s, r)
    ensures Sound(env, s')
  {
    match r
    case ProcessOnce(_, _, _, now, accept) => Beaten(env, Handling(env, s, r), now, accept)
    case SendData(data, isText, accept) =>
      if Posts(s, r) then
        s.(track := Record(s.track, Queued),
           link := Transmit.Send(s.link, env.capacity, AsFrame(data, isText), accept))
      else s
    case CloseDown => s.(track := OnClose(s.track))
    case SetHeartbeat(c, enable) => s.(config := c, enabled := enable, beat := Beat(0, 0))
  }

  // ---- What every step keeps -----------------------------------------------------------------------------

  lemma {:induction false} CutKeepsClean(q: seq<byte>)
    requires NoOverflow(q)
    ensures NoOverflow(Rest(q))
    decreases |q|
  {
    hide ParseFrame;
    if !HasFrame(q) {
    } else {
      CutKeepsClean(Tail(q));
    }
  }

  lemma {:induction false} TakeKeepsClean(q: seq<byte>, n: nat)
    requires NoOverflow(q)
    ensures NoOverflow(q[Consumed(q, n)..])
    decreases n
  {
    hide ParseFrame;
    if n == 0 || !HasFrame(q) {
      assert q[0..] == q;
    } else {
      TakeKeepsClean(Tail(q), n - 1);
      DropTail(q, n);
    }
  }

  lemma PassKeeps(env: Env, s: Session, now: nat)
    requires Ready(env, s) && WasOpen(s.track) && NoOverflow(s.unread)
    ensures Ready(env, Pass(env, s, now)) && WasOpen(Pass(env, s, now).track) && NoOverflow(Pass(env, s, now).unread)
  {
    hide Legal, NoOverflow, Take, Consumed, OnFrames, Answer, Effects;
    FramesKeep(s.track, Take(s.unread, MAX_PARSE_ATTEMPTS));
    TakeKeepsClean(s.unread, MAX_PARSE_ATTEMPTS);
  }

  lemma OpenWasOpen(t: Track)
    requires Legal(t) && t.state == Connected
    ensures WasOpen(t)
  {}

  lemma DrainedKeeps(env: Env, s: Session, now: nat)
    requires Ready(env, s) && s.Open()
    ensures Ready(env, Drained(env, s, now)) && WasOpen(Drained(env, s, now).track)
    ensures NoOverflow(Drained(env, s, now).unread)
  {
    hide NoOverflow, Cut, Rest, OnFrames, Answer, Effects, LegalLog;
    FramesKeep(s.track, Cut(s.unread));
    RestIsSettled(s.unread);
    CutKeepsClean(s.unread);
  }

  lemma ArrivedKeeps(env: Env, s: Session, a: Arrival, now: nat)
    requires Ready(env, s) && HoldsArrival(env, s, a)
    ensures Ready(env, Arrived(env, s, a, now))
  {
    hide NoOverflow, Drained, LegalLog;
    if a.Bytes? && s.Open() {
      DrainedKeeps(env, Received(env, s, a.data), now);
    } else if a.Bytes? {
      EventKeeps(s.track, Readable(a.handshake, []));
    } else {
      EventKeeps(s.track, Hangup);
    }
  }

  lemma {:induction false} DrainedTlsKeeps(env: Env, s: Session, now: nat, left: nat)
    requires Ready(env, s) && WasOpen(s.track) && NoOverflow(s.unread)
    ensures Ready(env, DrainedTls(env, s, now, left)) && WasOpen(DrainedTls(env, s, now, left).track)
    decreases left
  {
    hide Pass, NoOverflow, LegalLog;
    if left == 0 || !s.Open() {
    } else {
      PassKeeps(env, s, now);
      DrainedTlsKeeps(env, Pass(env, s, now), now, left - 1);
    }
  }

  lemma TlsGotKeeps(env: Env, s: Session, data: seq<byte>, now: nat)
    requires Ready(env, s) && s.Open() && Holds(env, s, data)
    ensures Ready(env, TlsGot(env, s, data, now))
  {
    hide Pass, NoOverflow, DrainedTls, LegalLog;
    PassKeeps(env, Received(env, s, data), now);
    DrainedTlsKeeps(env, Pass(env, Received(env, s, data), now), now, MAX_TLS_DRAINS);
  }

  lemma TlsFailedKeeps(env: Env, s: Session, now: nat)
    requires Ready(env, s) && s.Open()
    ensures Ready(env, TlsFailed(env, s, now))
  {
    hide Pass, NoOverflow, LegalLog;
    MoveKeeps(s.track, Closed);
    PassKeeps(env, s.(track := Move(s.track, Closed)), now);
  }

  lemma {:induction false} TlsLoopKeeps(
    env: Env, s: Session, inputs: seq<TlsInput>, i: nat, progress: bool, now: nat)
    requires Ready(env, s) && HoldsReads(env, s, inputs, i, progress, now)
    ensures Ready(env, TlsLoop(env, s, inputs, i, progress, now))
    decreases MAX_TLS_READS - i
  {
    hide Pass, NoOverflow, TlsGot, TlsFailed, LegalLog;
    if i >= MAX_TLS_READS || !s.Open() {
    } else {
      match ReadAt(inputs, i)
      case Got(data) =>
        TlsGotKeeps(env, s, data, now);
        TlsLoopKeeps(env, TlsGot(env, s, data, now), inputs, i + 1, true, now);
      case NoData =>
        PassKeeps(env, s, now);
        if progress && i + 1 < 5 { TlsLoopKeeps(env, Pass(env, s, now), inputs, i + 1, progress, now); }
      case Failed => TlsFailedKeeps(env, s, now);
    }
  }

  lemma HandlingKeeps(env: Env, s: Session, r: Request)
    requires r.ProcessOnce? && Ready(env, s) && Takes(env, s, r)
    ensures Ready(env, Handling(env, s, r))
  {
    hide Pass, NoOverflow, Arrived, TlsLoop, LegalLog;
    var s1 := Arrived(env, s, r.arrival, r.now);
    ArrivedKeeps(env, s, r.arrival, r.now);
    if r.tls && s1.Open() { TlsLoopKeeps(env, s1, r.inputs, 0, false, r.now); }
    var s2 := if r.tls && s1.Open() then TlsLoop(env, s1, r.inputs, 0, false, r.now) else s1;
    if s2.Open() { PassKeeps(env, s2, r.now); }
  }

  lemma BeatenKeeps(env: Env, s: Session, now: nat, accept: nat)
    requires Ready(env, s)
    ensures Ready(env, Beaten(env, s, now, accept))
  {
    hide NoOverflow, LegalLog, Transmit.Send;
    if s.Open() { OneMore(s.track.log, Queued); }
  }

  /** Every request leaves a session that the next one can start from. */
  lemma StepKeeps(env: Env, s: Session, r: Request)
    requires Ready(env, s) && Takes(env, s, r)
    ensures Ready(env, Step(env, s, r))
  {
    hide Handling, NoOverflow, LegalLog, Transmit.Send, Beaten;
    match r
    case ProcessOnce(_, _, _, now, accept) =>
      HandlingKeeps(env, s, r);
      BeatenKeeps(env, Handling(env, s, r), now, accept);
    case SendData(_, _, _) => if s.Open() { OneMore(s.track.log, Queued); }
    case CloseDown => MoveKeeps(s.track, Closed);
    case SetHeartbeat(_, _) =>
  }
}
