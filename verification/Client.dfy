/**
 The client as it runs (src/websocket.c:890-1229): receiver, transmitter and heartbeat under one connection state.
 Every method does to the rings, the log and the heartbeat what the step functions of the session say.
 */
module Clients {
  import opened Bytes
  import opened RingBuffers
  import opened Frames
  import opened Receive
  import opened Transmit
  import opened Transmitters
  import opened Regions
  import opened Receivers
  import opened Lifecycles
  import opened Heartbeats
  import opened Sessions
  import opened SessionRuns

  /** No pong is sent, and nothing else either, by handling no frame. */
  lemma RepliedSame(capacity: nat, choices: nat -> PongChoice, l: Link, log: seq<Effect>, l': Link)
    requires Replied(capacity, choices, l, log, log, l')
    ensures l' == l
  {
    assert log[|log|..] == [];
  }

  /** What the receiver has done with the frames is what the session says. */
  lemma ReachesHandled(env: Env, s: Session, ws: seq<WholeFrame>, b: Snap, now: nat)
    requires |s.link.queue| <= env.capacity && Legal(s.track) && WasOpen(s.track)
    requires Reaches(env.capacity, env.choices, Snap(s.track.state, s.effects, s.link), ws, b)
    ensures var r := Handled(env, s, ws, now); b == Snap(r.track.state, r.effects, r.link)
    ensures |s.effects| <= |b.log| && b.log[|s.effects|..] == Effects(s.track.state, ws)
    ensures Handled(env, s, ws, now).track.log == s.track.log + ToActions(b.log[|s.effects|..])
  {
    hide Effects, StateAfter, OnFrames, ToActions, Answer;
    FramesAsEffects(s.track, ws);
    assert b.log[|s.effects|..] == Effects(s.track.state, ws);
  }

  /** Handling frames leaves ring and error count alone, so that it may come before or after they are updated. */
  lemma HandledFrame(env: Env, a: Session, b: Session, ws: seq<WholeFrame>, now: nat)
    requires |a.link.queue| <= env.capacity
    requires b == a.(unread := b.unread, readPtr := b.readPtr, errors := b.errors)
    ensures Handled(env, b, ws, now)
         == Handled(env, a, ws, now).(unread := b.unread, readPtr := b.readPtr, errors := b.errors)
  {}

  lemma PassFields(env: Env, s: Session, now: nat)
    requires Sound(env, s)
    ensures var q, k := s.unread, Consumed(s.unread, MAX_PARSE_ATTEMPTS);
      Pass(env, s, now) == Handled(env, s, Take(q, MAX_PARSE_ATTEMPTS), now).(
        unread := q[k..], readPtr := Advance(env.size, s.readPtr, k), errors := s.errors + PassErrors(q))
  {
    hide Handled, Take, Consumed, PassErrors;
    var q, n := s.unread, MAX_PARSE_ATTEMPTS;
    HandledFrame(
      env, s, Released(env, s, Consumed(q, n)).(errors := s.errors + PassErrors(q)), Take(q, n), now);
  }

  /** A read event on an open connection, as the receiver states it. */
  lemma ReadFields(env: Env, s: Session, data: seq<byte>, now: nat)
    requires Sound(env, s) && s.Open() && Holds(env, s, data)
    ensures var c, q := Conn(Connected, s.unread), s.unread + data;
      && Drained(env, Received(env, s, data), now) == Handled(env, s, Cut(q), now).(
           unread := Feed(c, data).pending, readPtr := ReleasedTo(env.size, s.readPtr, c, data),
           errors := s.errors + DrainErrors(q))
      && FeedEffects(c, data) == Effects(Connected, Cut(q))
      && Feed(c, data).state == StateAfter(Connected, Cut(q))
  {
    hide Handled, Cut, Rest, DrainErrors, Effects, StateAfter, NoOverflow;
    var q := s.unread + data;
    RestIsSettled(q);
    HandledFrame(env, s, Released(env, Received(env, s, data), |q| - |Rest(q)|)
                 .(errors := s.errors + DrainErrors(q)), Cut(q), now);
  }

  /** Bytes that come while the connection is not open. */
  lemma AnswerFields(env: Env, s: Session, a: Arrival, now: nat)
    requires Ready(env, s) && !s.Open() && a.Bytes? && HoldsArrival(env, s, a)
    ensures Ready(env, Arrived(env, s, a, now))
    ensures var c, q, k := Conn(s.track.state, s.unread), s.unread + a.data, if Opens(s, a) then a.headerLen else 0;
      && Arrived(env, s, a, now) == s.(
           track := OnEvent(s.track, Readable(a.handshake, [])),
           unread := q[k..], readPtr := Advance(env.size, s.readPtr, k))
      && Feed(c, a.data) == Conn(s.track.state, q) && s.effects + FeedEffects(c, a.data) == s.effects
      && ReleasedTo(env.size, s.readPtr, c, a.data) == s.readPtr
  {
    hide NoOverflow, LegalLog, Cut, Rest;
    ArrivedKeeps(env, s, a, now);
    assert s.effects + [] == s.effects;
  }

  class Client {
    const receiver: Receiver
    const heartbeat: Heartbeat
    /** The life of the connection. */
    var log: seq<Action>

    ghost predicate Valid()
      reads this, heartbeat, receiver, receiver.rx, receiver.rx.buf, receiver.out, receiver.out.tx, receiver.out.tx.buf
    {
      receiver.Valid() && Ready(Environment(), State())
    }

    ghost function Environment(): Env
      requires receiver.Valid()
      reads receiver, receiver.rx, receiver.out, receiver.out.tx
    {
      Env(receiver.rx.buf.Length, receiver.out.Capacity(), receiver.choices)
    }

    ghost function State(): Session
      requires receiver.Valid()
      reads this, heartbeat, receiver, receiver.rx, receiver.rx.buf, receiver.out, receiver.out.tx, receiver.out.tx.buf
    {
      Session(
        Track(receiver.state, log), receiver.rx.Contents(), receiver.rx.readPtr, receiver.log,
        receiver.frameParseErrors, receiver.out.View(), heartbeat.config, heartbeat.enabled, heartbeat.View())
    }

    /** A connection that websocket_connect has just opened; its request may still be queued. */
    constructor (r: Receiver, h: Heartbeat)
      requires r.Valid() && r.Linear() && r.state == Connecting
      ensures Valid() && receiver == r && heartbeat == h && State().track == START
    {
      receiver, heartbeat, log := r, h, [];
    }

    /** Sets a state other than CONNECTED. */
    method MoveTo(to: WsState)
      requires Valid() && (to == Closing || to == Closed)
      modifies this, receiver`state
      ensures Valid() && State() == old(State()).(track := Move(old(State()).track, to))
    {
      hide NoOverflow, LegalLog;
      MoveKeeps(State().track, to);
      receiver.state := to;
      log := log + [Moved(to)];
    }

    /** websocket_close: whatever is queued stays queued. */
    method CloseConnection()
      requires Valid()
      modifies this, receiver`state
      ensures Valid() && State() == Step(Environment(), old(State()), CloseDown)
      ensures State().track.state == Closed && State().link == old(State()).link
    {
      hide NoOverflow, LegalLog;
      if receiver.state != Closed {
        MoveTo(Closed);
      }
    }

    /** websocket_send: the frame, or the part of it that fits, is queued only on an open connection. */
    method SendMessage(data: seq<byte>, isText: bool, accept: nat) returns (r: int)
      requires Valid() && |data| + 14 < TWO_64
      modifies this, receiver.out, receiver.out.tx, receiver.out.tx.buf
      ensures Valid() && State() == Step(Environment(), old(State()), SendData(data, isText, accept))
      ensures r == Returned(Environment(), old(State()), SendData(data, isText, accept))
    {
      hide NoOverflow, LegalLog, Transmit.Send, Succeeds;
      StepKeeps(Environment(), State(), SendData(data, isText, accept));
      r := receiver.out.SendMessage(receiver.state, data, isText, accept);
      if receiver.state == Connected && |data| > 0 {
        log := log + [Queued];
      }
    }

    /** websocket_set_heartbeat_config */
    method SetHeartbeatConfig(c: Config, enable: bool)
      requires Valid()
      modifies heartbeat
      ensures Valid() && State() == Step(Environment(), old(State()), SetHeartbeat(c, enable))
    {
      hide NoOverflow, LegalLog;
      heartbeat.SetConfig(c, enable);
    }

    /** Brings log and heartbeat up to date after the receiver has handled ws since the session `before`. */
    method Absorb(known: nat, now: nat, ghost before: Session, ghost ws: seq<WholeFrame>)
      requires receiver.Valid() && known == |before.effects| && log == before.track.log
      requires |before.link.queue| <= receiver.out.Capacity() && Legal(before.track) && WasOpen(before.track)
      requires receiver.HandledSince(Snap(before.track.state, before.effects, before.link), ws)
      requires heartbeat.config == before.config && heartbeat.enabled == before.enabled
      requires heartbeat.View() == before.beat
      modifies `log, heartbeat`lastPongReceivedNs
      ensures var r := Handled(Environment(), before, ws, now);
        State() == r.(unread := State().unread, readPtr := State().readPtr, errors := State().errors)
    {
      hide Effects, StateAfter, ToActions, OnFrames, Legal, Answer, Reaches, NoOverflow;
      ReachesHandled(Environment(), before, ws, receiver.Now(), now);
      var news := receiver.log[known..];
      log := log + ToActions(news);
      if NotePong in news {
        heartbeat.PongReceived(now);
      }
    }

    /** process_frames, on a connection that is open, or was until just now. */
    method PassFrames(now: nat)
      requires Valid() && NoOverflow(State().unread) && WasOpen(State().track)
      modifies this, receiver, receiver.rx, receiver.rx.buf, heartbeat`lastPongReceivedNs
      modifies receiver.out, receiver.out.tx, receiver.out.tx.buf
      ensures Valid() && State() == Pass(Environment(), old(State()), now)
      ensures NoOverflow(State().unread) && WasOpen(State().track)
    {
      hide Effects, OnFrames, LegalLog, WasOpen, Replied, Take, NoOverflow, Reaches, Splice, Image, Window, Consumed,
        PassErrors, Handled, Pass, Payloads, Pongs, Concat;
      ghost var before, q := State(), receiver.rx.Contents();
      var known := |receiver.log|;
      PassKeeps(Environment(), before, now);
      receiver.ProcessFrames();
      Absorb(known, now, before, Take(q, MAX_PARSE_ATTEMPTS));
      PassFields(Environment(), before, now);
    }

    /** A read event on an open connection: everything whole is handled. */
    method ReadFrames(data: seq<byte>, now: nat)
      requires Valid() && State().Open() && Holds(Environment(), State(), data)
      modifies this, receiver, receiver.rx, receiver.rx.buf, heartbeat`lastPongReceivedNs
      modifies receiver.out, receiver.out.tx, receiver.out.tx.buf
      ensures Valid()
      ensures State() == Drained(Environment(), Received(Environment(), old(State()), data), now)
    {
      hide Effects, StateAfter, OnFrames, LegalLog, Replied, NoOverflow, Cut, Rest, Window, DrainErrors, Handled,
        Drained, Feed, FeedEffects, ReleasedTo, Payloads, Pongs, Concat;
      ghost var env, before, q := Environment(), State(), receiver.rx.Contents() + data;
      var known := |receiver.log|;
      DrainedKeeps(env, Received(env, before, data), now);
      ReadFields(env, before, data, now);
      receiver.OnReadEvent(data);
      Absorb(known, now, before, Cut(q));
    }

    /** Bytes that come while the connection is not open: the answer to the handshake, or nothing of interest. */
    method ReadAnswer(data: seq<byte>, handshake: Handshake, headerLen: nat, ghost now: nat)
      requires Valid() && !State().Open() && HoldsArrival(Environment(), State(), Bytes(data, handshake, headerLen))
      modifies this, receiver, receiver.rx, receiver.rx.buf
      modifies receiver.out, receiver.out.tx, receiver.out.tx.buf
      ensures Valid()
      ensures State() == Arrived(Environment(), old(State()), Bytes(data, handshake, headerLen), now)
    {
      hide Effects, StateAfter, OnFrames, Replied, NoOverflow, Cut, Rest, Window, LegalLog, DrainErrors,
        Arrived, Feed, FeedEffects, ReleasedTo, Payloads, Pongs, Concat;
      AnswerFields(Environment(), State(), Bytes(data, handshake, headerLen), now);
      ghost var q := receiver.rx.Contents() + data;
      receiver.OnReadEvent(data);
      assert q[0..] == q;
      RepliedSame(receiver.out.Capacity(), receiver.choices, old(State()).link, receiver.log, receiver.out.View());
      if receiver.state == Connecting && handshake == Accepted {
        receiver.rx.AdvanceRead(headerLen);
        receiver.state := Connected;
        log := log + [Opened];
      } else if receiver.state == Connecting && handshake == Rejected {
        receiver.state := Closed;
        log := log + [Moved(Closed)];
      }
    }

    /** The event of one call. */
    method OnArrival(a: Arrival, now: nat)
      requires Valid() && HoldsArrival(Environment(), State(), a)
      modifies this, receiver, receiver.rx, receiver.rx.buf, heartbeat`lastPongReceivedNs
      modifies receiver.out, receiver.out.tx, receiver.out.tx.buf
      ensures Valid() && State() == Arrived(Environment(), old(State()), a, now)
    {
      hide NoOverflow, Drained, LegalLog, Holds;
      match a
      case Quiet =>
      case Eof =>
        if receiver.state == Connected || receiver.state == Connecting {
          MoveTo(Closed);
        }
      case Bytes(data, handshake, headerLen) =>
        if receiver.state == Connected {
          ReadFrames(data, now);
        } else {
          ReadAnswer(data, handshake, headerLen, now);
        }
    }

    /** The bounded drain after a TLS read: it stops when the read index stands still or the connection is left. */
    method DrainTls(now: nat)
      requires Valid() && State().Open()
      modifies this, receiver, receiver.rx, receiver.rx.buf, heartbeat`lastPongReceivedNs
      modifies receiver.out, receiver.out.tx, receiver.out.tx.buf
      ensures Valid()
      ensures State() == DrainedTls(Environment(), Pass(Environment(), old(State()), now), now, MAX_TLS_DRAINS)
    {
      hide NoOverflow, Pass, LegalLog;
      ghost var env := Environment();
      PassFrames(now);
      ghost var s := State();
      var iterations := 0;
      while iterations < MAX_TLS_DRAINS && receiver.state == Connected
        invariant 0 <= iterations <= MAX_TLS_DRAINS && Valid() && Environment() == env
        invariant WasOpen(State().track) && NoOverflow(State().unread)
        invariant DrainedTls(env, State(), now, MAX_TLS_DRAINS - iterations) == DrainedTls(env, s, now, MAX_TLS_DRAINS)
      {
        var before := receiver.rx.readPtr;
        PassFrames(now);
        if receiver.rx.readPtr == before {
          return;
        }
        iterations := iterations + 1;
      }
    }

    /** A TLS read that brought bytes. */
    method TlsData(data: seq<byte>, now: nat)
      requires Valid() && State().Open() && Holds(Environment(), State(), data)
      modifies this, receiver, receiver.rx, receiver.rx.buf, heartbeat`lastPongReceivedNs
      modifies receiver.out, receiver.out.tx, receiver.out.tx.buf
      ensures Valid() && State() == TlsGot(Environment(), old(State()), data, now)
    {
      hide NoOverflow, Pass, DrainedTls, LegalLog, Window;
      OfferedEnough(receiver.rx.buf.Length, receiver.rx.readPtr, receiver.rx.writePtr, |data|);
      receiver.rx.Commit(data);
      DrainTls(now);
    }

    /** A TLS read that failed: the frames still in the ring are handled. */
    method TlsBroken(now: nat)
      requires Valid() && State().Open()
      modifies this, receiver, receiver.rx, receiver.rx.buf, heartbeat`lastPongReceivedNs
      modifies receiver.out, receiver.out.tx, receiver.out.tx.buf
      ensures Valid() && State() == TlsFailed(Environment(), old(State()), now)
    {
      hide NoOverflow, Pass, LegalLog;
      MoveKeeps(State().track, Closed);
      MoveTo(Closed);
      PassFrames(now);
    }

    /** The TLS loop: it reads until nothing comes, the layer fails, or the connection is left. */
    method ReadTls(inputs: seq<TlsInput>, now: nat)
      requires Valid() && HoldsReads(Environment(), State(), inputs, 0, false, now)
      modifies this, receiver, receiver.rx, receiver.rx.buf, heartbeat`lastPongReceivedNs
      modifies receiver.out, receiver.out.tx, receiver.out.tx.buf
      ensures Valid() && State() == TlsLoop(Environment(), old(State()), inputs, 0, false, now)
    {
      hide NoOverflow, Pass, TlsGot, TlsFailed, LegalLog, Holds;
      ghost var env, s := Environment(), State();
      var attempts, progress := 0, false;
      while attempts < MAX_TLS_READS && receiver.state == Connected
        invariant 0 <= attempts <= MAX_TLS_READS && Valid() && Environment() == env
        invariant HoldsReads(env, State(), inputs, attempts, progress, now)
        invariant TlsLoop(env, State(), inputs, attempts, progress, now) == TlsLoop(env, s, inputs, 0, false, now)
      {
        var input := ReadAt(inputs, attempts);
        attempts := attempts + 1;
        match input {
          case Got(data) =>
            progress := true;
            TlsData(data, now);
          case NoData =>
            PassFrames(now);
            if progress && attempts < 5 {
              continue;
            }
            return;
          case Failed =>
            TlsBroken(now);
            return;
        }
      }
    }

    /** check_heartbeat: when a ping is due it is queued, and sent if both its bytes found room. */
    method CheckBeat(now: nat, accept: nat) returns (timedOut: bool)
      requires Valid()
      modifies `log, heartbeat`lastPingSentNs, receiver.out`wire, receiver.out.tx, receiver.out.tx.buf
      ensures Valid() && State() == Beaten(Environment(), old(State()), now, accept)
      ensures var s := old(State());
        timedOut <==> s.Open() && s.enabled && Fires(s.config, s.beat, Checked(Environment(), s, now))
    {
      hide Transmit.Send, Succeeds, NoOverflow, LegalLog;
      BeatenKeeps(Environment(), State(), now, accept);
      var written, pinged := false, false;
      if receiver.state == Connected && heartbeat.enabled && Due(heartbeat.config, heartbeat.View(), now) {
        written := receiver.out.SendPing(accept);
        log := log + [Queued];
      }
      pinged, timedOut := heartbeat.CheckHeartbeat(receiver.state == Connected, now, written);
    }

    /** websocket_process */
    method Process(a: Arrival, tls: bool, inputs: seq<TlsInput>, now: nat, accept: nat) returns (timedOut: bool)
      requires Valid() && Takes(Environment(), State(), ProcessOnce(a, tls, inputs, now, accept))
      modifies this, receiver, receiver.rx, receiver.rx.buf, receiver.out, receiver.out.tx, receiver.out.tx.buf
      modifies heartbeat`lastPongReceivedNs, heartbeat`lastPingSentNs
      ensures Valid() && State() == Step(Environment(), old(State()), ProcessOnce(a, tls, inputs, now, accept))
      ensures timedOut == TimesOut(Environment(), old(State()), ProcessOnce(a, tls, inputs, now, accept))
    {
      hide Arrived, TlsLoop, Pass, Beaten, NoOverflow, LegalLog, HoldsArrival, HoldsReads;
      OnArrival(a, now);
      if receiver.state == Connected && tls {
        ReadTls(inputs, now);
      }
      if receiver.state == Connected {
        PassFrames(now);
      }
      timedOut := CheckBeat(now, accept);
    }

    method Serve(r: Request)
      requires Valid() && Takes(Environment(), State(), r)
      modifies this, heartbeat, receiver, receiver.rx, receiver.rx.buf
      modifies receiver.out, receiver.out.tx, receiver.out.tx.buf
      ensures Valid() && State() == Step(Environment(), old(State()), r)
    {
      hide Step, Ready;
      match r
      case ProcessOnce(a, tls, inputs, now, accept) =>
        var timedOut := Process(a, tls, inputs, now, accept);
      case SendData(data, isText, accept) =>
        var code := SendMessage(data, isText, accept);
      case CloseDown => CloseConnection();
      case SetHeartbeat(c, enable) => SetHeartbeatConfig(c, enable);
    }

    /**
     Any series of calls: rings, log and heartbeat end as the run of the session says; the log is a run of the life
     cycle; and if the connection was left before, queue and wire are untouched.
     */
    method ServeAll(rs: seq<Request>)
      requires Valid() && TakesAll(Environment(), State(), rs)
      modifies this, heartbeat, receiver, receiver.rx, receiver.rx.buf
      modifies receiver.out, receiver.out.tx, receiver.out.tx.buf
      ensures Valid() && State() == RunAll(Environment(), old(State()), rs)
      ensures State().track == Lifecycles.Run(old(State()).track, OpsOf(Environment(), old(State()), rs))
      ensures old(HasMoved(log)) ==> State().link == old(State()).link
    {
      hide Step, Takes, OpsOf, Lifecycles.Run, Lifecycles.Legal, NoOverflow;
      ghost var env, s := Environment(), State();
      RunTracks(env, s, rs);
      MovedIsGone(s);
      if s.Gone() { RunWhenGone(env, s, rs); }
      var i := 0;
      assert rs[0..] == rs;
      while i < |rs|
        invariant 0 <= i <= |rs| && Valid() && Environment() == env
        invariant TakesAll(env, State(), rs[i..])
        invariant RunAll(env, State(), rs[i..]) == RunAll(env, s, rs)
      {
        assert rs[i..][0] == rs[i] && rs[i..][1..] == rs[i + 1..];
        Serve(rs[i]);
        i := i + 1;
      }
      assert rs[i..] == [];
    }
  }
}
