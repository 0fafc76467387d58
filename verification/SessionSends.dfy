/**
 What a series of requests sends (src/websocket.c:807-939, 1564-1601): messages, pongs and pings, which the peer
 recovers as whole frames.
 */
module SessionSends {
  import opened Bytes
  import opened RingBuffers
  import opened Frames
  import opened Receive
  import opened Transmit
  import opened Regions
  import opened Lifecycles
  import opened Heartbeats
  import opened Sessions
  import opened SessionRuns

  /** Between a and b exactly the pings handled were answered, and a pong among what was handled was noted. */
  ghost predicate Answers(env: Env, a: Session, b: Session, now: nat) {
    && Replied(env.capacity, env.choices, a.link, a.effects, b.effects, b.link)
    && b.config == a.config && b.enabled == a.enabled
    && b.beat == HeardPong(a.config, a.beat, b.effects[|a.effects|..], now)
  }

  lemma AnswersThen(env: Env, a: Session, b: Session, c: Session, now: nat)
    requires Answers(env, a, b, now) && Answers(env, b, c, now)
    ensures Answers(env, a, c, now)
  {
    hide Answer, Pongs, Next;
    RepliedThen(env.capacity, env.choices, a.link, a.effects, b.link, b.effects, c.link, c.effects);
    hide Replied;
    RepliedGrows(env.capacity, env.choices, a.link, a.effects, b.effects, b.link);
    RepliedGrows(env.capacity, env.choices, b.link, b.effects, c.effects, c.link);
    HeardTwice(a.config, a.beat, b.effects[|a.effects|..], c.effects[|b.effects|..], now);
    assert c.effects[|a.effects|..] == b.effects[|a.effects|..] + c.effects[|b.effects|..];
  }

  lemma RepliedGrows(
    capacity: nat, choices: nat -> PongChoice, l: Link, before: seq<Effect>, after: seq<Effect>, l': Link)
    requires Replied(capacity, choices, l, before, after, l')
    ensures before <= after
  {}

  lemma HeardTwice(c: Config, b: Beat, x: seq<Effect>, y: seq<Effect>, now: nat)
    ensures HeardPong(c, HeardPong(c, b, x, now), y, now) == HeardPong(c, b, x + y, now)
  {
  }

  lemma AnswersNothing(env: Env, a: Session, b: Session, now: nat)
    requires |a.link.queue| <= env.capacity
    requires b == a.(track := b.track, unread := b.unread, readPtr := b.readPtr)
    ensures Answers(env, a, b, now)
  {
    RepliedNothing(env.capacity, env.choices, a.link, a.effects);
    assert a.effects[|a.effects|..] == [];
  }

  lemma HandledAnswers(env: Env, a: Session, s: Session, ws: seq<WholeFrame>, now: nat)
    requires |s.link.queue| <= env.capacity
    requires s == a.(track := s.track, unread := s.unread, readPtr := s.readPtr, errors := s.errors)
    ensures Answers(env, a, Handled(env, s, ws, now), now)
  {
    hide Effects, Answer, Pongs;
    var es := Effects(s.track.state, ws);
    assert (s.effects + es)[|s.effects|..] == es;
  }

  lemma PassAnswers(env: Env, a: Session, s: Session, now: nat)
    requires Sound(env, s) && s == a.(track := s.track, unread := s.unread)
    ensures Answers(env, a, Pass(env, s, now), now)
  {
    hide Take, Consumed, PassErrors, Handled, Answers;
    var n, q := MAX_PARSE_ATTEMPTS, s.unread;
    HandledAnswers(
      env, a, Released(env, s, Consumed(q, n)).(errors := s.errors + PassErrors(q)), Take(q, n), now);
  }

  lemma ArrivedAnswers(env: Env, s: Session, a: Arrival, now: nat)
    requires Sound(env, s) && HoldsArrival(env, s, a)
    ensures Answers(env, s, Arrived(env, s, a, now), now)
  {
    hide Cut, Rest, NoOverflow, DrainErrors, Handled, Answers;
    if a.Bytes? && s.Open() {
      var s' := Received(env, s, a.data);
      var q := s'.unread;
      RestIsSettled(q);
      HandledAnswers(
        env, s, Released(env, s', |q| - |Rest(q)|).(errors := s'.errors + DrainErrors(q)), Cut(q), now);
    } else {
      AnswersNothing(env, s, Arrived(env, s, a, now), now);
    }
  }

  lemma {:induction false} DrainAnswers(env: Env, s: Session, now: nat, left: nat)
    requires Sound(env, s)
    ensures Answers(env, s, DrainedTls(env, s, now, left), now)
    decreases left
  {
    hide Pass, Answers;
    if left == 0 || !s.Open() {
      AnswersNothing(env, s, s, now);
    } else {
      var s' := Pass(env, s, now);
      PassAnswers(env, s, s, now);
      DrainAnswers(env, s', now, left - 1);
      AnswersThen(env, s, s', DrainedTls(env, s', now, left - 1), now);
    }
  }

  lemma {:induction false} TlsLoopAnswers(
    env: Env, s: Session, inputs: seq<TlsInput>, i: nat, progress: bool, now: nat)
    requires Sound(env, s) && HoldsReads(env, s, inputs, i, progress, now)
    ensures Answers(env, s, TlsLoop(env, s, inputs, i, progress, now), now)
    decreases MAX_TLS_READS - i
  {
    hide Pass, Answers, DrainedTls, NoOverflow;
    var end := TlsLoop(env, s, inputs, i, progress, now);
    if i >= MAX_TLS_READS || !s.Open() {
      AnswersNothing(env, s, s, now);
    } else {
      match ReadAt(inputs, i)
      case Got(data) =>
        var s1, s2 := Pass(env, Received(env, s, data), now), TlsGot(env, s, data, now);
        PassAnswers(env, s, Received(env, s, data), now);
        DrainAnswers(env, s1, now, MAX_TLS_DRAINS);
        TlsLoopAnswers(env, s2, inputs, i + 1, true, now);
        AnswersThen(env, s, s1, s2, now);
        AnswersThen(env, s, s2, end, now);
      case NoData =>
        PassAnswers(env, s, s, now);
        if progress && i + 1 < 5 {
          TlsLoopAnswers(env, Pass(env, s, now), inputs, i + 1, progress, now);
          AnswersThen(env, s, Pass(env, s, now), end, now);
        }
      case Failed => PassAnswers(env, s, s.(track := Move(s.track, Closed)), now);
    }
  }

  lemma HandlingAnswers(env: Env, s: Session, r: Request)
    requires r.ProcessOnce? && Sound(env, s) && Takes(env, s, r)
    ensures Answers(env, s, Handling(env, s, r), r.now) && |s.effects| <= |Handling(env, s, r).effects|
  {
    hide Pass, Answers, Arrived, TlsLoop, HoldsArrival, HoldsReads;
    var s1 := Arrived(env, s, r.arrival, r.now);
    ArrivedAnswers(env, s, r.arrival, r.now);
    var s2 := if r.tls && s1.Open() then TlsLoop(env, s1, r.inputs, 0, false, r.now) else s1;
    if r.tls && s1.Open() {
      TlsLoopAnswers(env, s1, r.inputs, 0, false, r.now);
      AnswersThen(env, s, s1, s2, r.now);
    }
    if s2.Open() {
      PassAnswers(env, s2, s2, r.now);
      AnswersThen(env, s, s2, Handling(env, s, r), r.now);
    }
    AnswersGrow(env, s, Handling(env, s, r), r.now);
  }

  lemma AnswersGrow(env: Env, a: Session, b: Session, now: nat)
    requires Answers(env, a, b, now)
    ensures |a.effects| <= |b.effects|
  {}

  /**
   What one call of websocket_process sends and hears, with TLS or without: a pong for each ping handled, in order,
   then a ping if one is due after the pongs handled were noted; the timeout is judged on the same state.
   */
  lemma CallAnswers(env: Env, s: Session, r: Request)
    requires r.ProcessOnce? && Sound(env, s) && Takes(env, s, r)
    ensures var s', e := Step(env, s, r), Check(r.now, Succeeds(Handling(env, s, r).link, env.capacity, Ping));
      && s.effects <= s'.effects
      && var news := s'.effects[|s.effects|..];
      var answered := Answer(s.link, env.capacity, env.choices, |Pongs(s.effects)|, Pongs(news));
      var heard := HeardPong(s.config, s.beat, news, r.now);
      var beats := s'.Open() && s.enabled;
      && s'.link == (if beats && Due(s.config, heard, r.now) then Transmit.Send(answered, env.capacity, Ping, r.accept)
                     else answered)
      && s'.beat == (if beats then Next(s.config, heard, e) else heard)
      && (TimesOut(env, s, r) <==> beats && Fires(s.config, heard, e))
  {
    hide Handling, Takes, Answer, Pongs, Transmit.Send, Succeeds, Next, Fires, Due, HeardPong;
    HandlingAnswers(env, s, r);
  }

  /** The frames a request sends: the pongs for the pings handled and a ping if one is due, or the message. */
  ghost function CallsOf(env: Env, s: Session, r: Request): seq<Transmit.Call>
    requires Sound(env, s) && Takes(env, s, r)
  {
    match r
    case ProcessOnce(_, _, _, now, accept) =>
      HandlingAnswers(env, s, r);
      var s' := Handling(env, s, r);
      PongCalls(env.choices, |Pongs(s.effects)|, Pongs(s'.effects[|s.effects|..])) +
      if PingDue(s', now) then [SendFrame(Ping, accept)] else []
    case SendData(data, isText, accept) => if Posts(s, r) then [SendFrame(AsFrame(data, isText), accept)] else []
    case _ => []
  }

  /** The message a request has sent, if it is a send that returned 0. */
  ghost function PostedBy(env: Env, s: Session, r: Request): seq<seq<byte>>
    requires Sound(env, s) && Takes(env, s, r)
  {
    if r.SendData? && Returned(env, s, r) == 0 then [r.data] else []
  }

  lemma OneCall(l: Link, capacity: nat, c: Transmit.Call)
    requires |l.queue| <= capacity && c.SendFrame? && Sendable(c.frame)
    ensures ClientCalls([c]) && SendAll(l, capacity, [c]) == Transmit.Send(l, capacity, c.frame, c.accept)
    ensures Sent(l, capacity, [c]) == if Succeeds(l, capacity, c.frame) then [c.frame] else []
  {
    hide Transmit.Send, Succeeds;
    var l' := Transmit.Send(l, capacity, c.frame, c.accept);
    assert [c][1..] == [];
    assert SendAll(l', capacity, []) == l' && Sent(l', capacity, []) == [];
  }

  lemma StepSends(env: Env, s: Session, r: Request)
    requires Sound(env, s) && Takes(env, s, r)
    ensures ClientCalls(CallsOf(env, s, r))
    ensures Step(env, s, r).link == SendAll(s.link, env.capacity, CallsOf(env, s, r))
    ensures Bodies(Sent(s.link, env.capacity, CallsOf(env, s, r))) == PostedBy(env, s, r)
  {
    hide Transmit.Send, Succeeds, Handling, Answer, PongCalls, Pongs, SendAll, Sent, Bodies, NoOverflow;
    NothingSent(s.link, env.capacity);
    match r
    case ProcessOnce(_, _, _, now, accept) =>
      HandlingAnswers(env, s, r);
      var s' := Handling(env, s, r);
      var n, ps := |Pongs(s.effects)|, Pongs(s'.effects[|s.effects|..]);
      var pongs := PongCalls(env.choices, n, ps);
      AnswerIsSends(s.link, env.capacity, env.choices, n, ps);
      NothingSent(s'.link, env.capacity);
      if PingDue(s', now) {
        var c := SendFrame(Ping, accept);
        OneCall(s'.link, env.capacity, c);
        SendAllAppend(s.link, env.capacity, pongs, [c]);
        BodiesAppend(Sent(s.link, env.capacity, pongs), Sent(s'.link, env.capacity, [c]));
        NoBody(Ping);
      } else {
        assert pongs + [] == pongs;
      }
    case SendData(data, isText, accept) =>
      if Posts(s, r) {
        OneCall(s.link, env.capacity, SendFrame(AsFrame(data, isText), accept));
        NoBody(AsFrame(data, isText));
      }
    case _ =>
  }

  lemma NothingSent(l: Link, capacity: nat)
    requires |l.queue| <= capacity
    ensures SendAll(l, capacity, []) == l && Sent(l, capacity, []) == [] && Bodies([]) == []
  {}

  lemma NoBody(o: Outgoing)
    ensures Bodies([o]) == if o.Text? || o.Binary? then [o.data] else []
  {
    assert [o][1..] == [];
  }

  ghost function AllCalls(env: Env, s: Session, rs: seq<Request>): seq<Transmit.Call>
    requires Sound(env, s) && TakesAll(env, s, rs)
    decreases |rs|
  {
    if rs == [] then [] else CallsOf(env, s, rs[0]) + AllCalls(env, Step(env, s, rs[0]), rs[1..])
  }

  /** The messages of the sends that returned 0. */
  ghost function Posted(env: Env, s: Session, rs: seq<Request>): seq<seq<byte>>
    requires Sound(env, s) && TakesAll(env, s, rs)
    decreases |rs|
  {
    if rs == [] then [] else PostedBy(env, s, rs[0]) + Posted(env, Step(env, s, rs[0]), rs[1..])
  }

  /** Over every series of requests, what is queued and sent is that of a series of frames. */
  lemma {:induction false} RunSends(env: Env, s: Session, rs: seq<Request>)
    requires Sound(env, s) && TakesAll(env, s, rs)
    ensures ClientCalls(AllCalls(env, s, rs))
    ensures RunAll(env, s, rs).link == SendAll(s.link, env.capacity, AllCalls(env, s, rs))
    ensures Bodies(Sent(s.link, env.capacity, AllCalls(env, s, rs))) == Posted(env, s, rs)
    decreases |rs|
  {
    hide Step, Takes, CallsOf, PostedBy, SendAll, Sent, Bodies;
    if rs == [] {
      NothingSent(s.link, env.capacity);
    } else {
      var s', cs := Step(env, s, rs[0]), CallsOf(env, s, rs[0]);
      var later := AllCalls(env, s', rs[1..]);
      StepSends(env, s, rs[0]);
      RunSends(env, s', rs[1..]);
      SendAllAppend(s.link, env.capacity, cs, later);
      BodiesAppend(Sent(s.link, env.capacity, cs), Sent(s'.link, env.capacity, later));
    }
  }

  /**
   End to end: behind what was queued before (such as the request of the handshake) the peer recovers only frames
   that were sent. However the bytes are cut into reads, a peer with this receive path is handed the leading
   messages whose send returned 0; all of them once the queue has drained. Pongs and pings do not disturb this.
   */
  lemma SessionEndToEnd(env: Env, s: Session, rs: seq<Request>, chunks: seq<seq<byte>>)
    requires Sound(env, s) && TakesAll(env, s, rs)
    requires var wire := RunAll(env, s, rs).link.wire;
      |s.link.Stream()| <= |wire| && Concat(chunks) == wire[|s.link.Stream()|..]
    ensures var l, calls := RunAll(env, s, rs).link, AllCalls(env, s, rs);
      && Payloads(FeedAllEffects(OPEN, chunks)) <= Posted(env, s, rs)
      && (l.queue == [] ==> Payloads(FeedAllEffects(OPEN, chunks)) == Posted(env, s, rs))
      && ClientCalls(calls) && Cut(Concat(chunks)) <= Arrivals(Sent(s.link, env.capacity, calls))
  {
    hide RunAll, AllCalls, Posted, SendAll, Sent, Bodies, FeedAllEffects, Payloads, Cut, Arrivals, NoOverflow;
    RunSends(env, s, rs);
    EndToEndAfter(s.link, env.capacity, AllCalls(env, s, rs), chunks);
    PeerSeesAfter(s.link, env.capacity, AllCalls(env, s, rs));
  }
}
