/**
 The connection as the peer knows it: what the handshake decides, what each request puts on the wire in the
 peer's own terms, how the peer's frames are answered, and that log and heartbeat record what really happened.
 */
module SessionPeers {
  import opened Bytes
  import opened RingBuffers
  import opened Frames
  import opened Receive
  import opened Transmit
  import opened Peers
  import opened Regions
  import opened Lifecycles
  import opened Heartbeats
  import opened Sessions
  import opened SessionRuns
  import opened SessionSends
  import opened SessionStreams

  // ---- Opening and closing -----------------------------------------------------------------------------------

  /** An accepted handshake opens the connection; frames that came behind the answer are handled in the same call. */
  lemma AcceptedOpens(env: Env, s: Session, r: Request)
    requires Sound(env, s) && Takes(env, s, r) && s.track.state == Connecting
    requires r.ProcessOnce? && !r.tls && r.arrival.Bytes? && r.arrival.handshake == Accepted
    ensures var s', q := Step(env, s, r), (s.unread + r.arrival.data)[r.arrival.headerLen..];
      && s.track.log + [Opened] <= s'.track.log
      && s'.effects == s.effects + Effects(Connected, Take(q, 1000))
      && s'.unread == q[Consumed(q, 1000)..]
      && s'.track.state == StateAfter(Connected, Take(q, 1000))
  {
    hide Effects, StateAfter, OnFrames, Answer, Take, Consumed, Drained, NoOverflow, Transmit.Send, PassErrors;
    var s1 := Arrived(env, s, r.arrival, r.now);
    assert s1.track == Track(Connected, s.track.log + [Opened]);
    FramesAsEffects(s1.track, Take(s1.unread, 1000));
  }

  /** A rejected handshake, and a hangup of an open or opening connection, close it; nothing is sent or delivered. */
  lemma RefusedCloses(env: Env, s: Session, r: Request)
    requires Sound(env, s) && Takes(env, s, r) && r.ProcessOnce?
    requires s.track.state == Connecting || s.track.state == Connected
    requires r.arrival.Eof? || (r.arrival.Bytes? && s.track.state == Connecting && r.arrival.handshake == Rejected)
    ensures var s' := Step(env, s, r);
      s'.track == Track(Closed, s.track.log + [Moved(Closed)]) && s'.link == s.link && s'.effects == s.effects
  {
    hide Pass, TlsLoop, Drained, NoOverflow, HoldsReads, Transmit.Send;
  }

  /** An answer that is not complete yet is kept. */
  lemma PendingWaits(env: Env, s: Session, r: Request)
    requires Sound(env, s) && Takes(env, s, r) && s.track.state == Connecting
    requires r.ProcessOnce? && r.arrival.Bytes? && r.arrival.handshake == Pending
    ensures var s' := Step(env, s, r);
      && s'.track == s.track && s'.unread == s.unread + r.arrival.data && s'.link == s.link
      && s'.effects == s.effects
  {
    hide Pass, TlsLoop, Drained, NoOverflow, HoldsReads, Transmit.Send;
  }

  /** Whatever came before, the connection is CLOSED after a close. */
  lemma {:induction false} CloseDownCloses(env: Env, s: Session, rs: seq<Request>)
    requires Sound(env, s) && TakesAll(env, s, rs)
    ensures Step(env, RunAll(env, s, rs), CloseDown).track.state == Closed
  {
    hide RunAll, TakesAll;
  }

  // ---- What a message looks like to the peer -----------------------------------------------------------------

  /** The frame the peer is to see for a message: final, unmasked, opcode 1 for text and 2 for binary. */
  function MessageFrame(data: seq<byte>, isText: bool): (f: PeerFrame)
    requires |data| + 14 < TWO_64
    ensures f.Valid()
  {
    PeerFrame(true, 0, if isText then 1 else 2, [], Shortest(|data|), data)
  }

  /**
   On an open connection a message that fits is queued as the peer's encoding of that frame, sent as far as the
   socket takes it, and 0 returned; in every other case -1 is returned.
   */
  lemma MessageSent(env: Env, s: Session, r: Request)
    requires Sound(env, s) && Takes(env, s, r) && r.SendData?
    ensures var e, s' := PeerBytes(MessageFrame(r.data, r.isText)), Step(env, s, r);
      if s.Open() && r.data != [] && |s.link.queue| + |e| <= env.capacity then
        var all := s.link.queue + e;
        && Returned(env, s, r) == 0
        && s'.link.wire == s.link.wire + all[..Min(r.accept, |all|)]
        && s'.link.queue == all[Min(r.accept, |all|)..]
      else Returned(env, s, r) == -1 && s'.link.wire == s.link.wire
  {
    hide Encode, PeerBytes, Transmit.Send;
    var o := AsFrame(r.data, r.isText);
    EncodeIsPeers(o);
    SendMoves(s.link, env.capacity, o, r.accept);
  }

  // ---- How the peer's frames are answered --------------------------------------------------------------------

  /**
   The peer's frames, arriving whole in one read on an open connection: each has the effect the peer may expect,
   a pong among them is noted at once, and the pings before a close are answered with their own payloads.
   */
  lemma PeerFramesHandled(env: Env, s: Session, r: Request, fs: seq<PeerFrame>)
    requires Sound(env, s) && Takes(env, s, r) && s.Open() && s.unread == []
    requires AllValid(fs) && r.ProcessOnce? && !r.tls && r.arrival.Bytes? && r.arrival.data == PeerStream(fs)
    ensures var s', h := Step(env, s, r), Handling(env, s, r);
      && s'.effects == s.effects + Reactions(Connected, fs) && s'.unread == []
      && s'.track.state == (if Closes(fs) then Closing else Connected)
      && h.beat.lastPong == (if NotePong in Reactions(Connected, fs) then r.now else s.beat.lastPong)
      && h.link == Answer(s.link, env.capacity, env.choices, |Pongs(s.effects)|, Pinged(fs))
  {
    hide ParseFrame, Cut, Rest, Effects, OnFrames, Answer, DrainErrors, NoOverflow, Pass, PeerStream, StateAfter, Pongs,
      HasFrame, Reactions, Transmit.Send;
    var q, s1 := PeerStream(fs), Arrived(env, s, r.arrival, r.now);
    assert [] + q == q && q + [] == q;
    TooShortIff([]);
    PeerStreamArrives(fs, [], Connected);
    PeerStreamState(fs, [], Connected);
    ReactionsDeliver(Connected, fs);
    FramesAsEffects(s.track, Cut(q));
    assert q[|q| - 0..] == [];
    EmptyHasNoFrame();
    assert s1.unread == [];
    IdlePass(env, s1, r.now);
  }

  /** NotePong stands for a frame of opcode 10. */
  lemma {:induction false} NotedIff(st: WsState, fs: seq<PeerFrame>)
    ensures NotePong in Reactions(st, fs) <==> exists i | 0 <= i < |fs| :: fs[i].opcode == 10
    decreases |fs|
  {
    if fs == [] {
    } else {
      NotedIff(if fs[0].opcode == 8 then Closing else st, fs[1..]);
      assert fs == [fs[0]] + fs[1..];
    }
  }

  /**
   Ping and pong, end to end: with room for the answers and no ping of its own due, the client puts on its stream
   exactly the pongs that answer the pings, each with the payload of its ping.
   */
  lemma PingsAnswered(env: Env, s: Session, r: Request, fs: seq<PeerFrame>)
    requires Sound(env, s) && Takes(env, s, r) && s.Open() && s.unread == []
    requires AllValid(fs) && r.ProcessOnce? && !r.tls && r.arrival.Bytes? && r.arrival.data == PeerStream(fs)
    requires !PingDue(Handling(env, s, r), r.now)
    ensures var pongs := PeerStream(PongsFor(env.choices, |Pongs(s.effects)|, Pinged(fs)));
      |s.link.queue| + |pongs| <= env.capacity ==> Step(env, s, r).link.Stream() == s.link.Stream() + pongs
  {
    hide Handling, Answer, PeerStream, Pongs, PongsFor, Pinged, Takes;
    PeerFramesHandled(env, s, r, fs);
    var n, ps := |Pongs(s.effects)|, Pinged(fs);
    if |s.link.queue| + |PeerStream(PongsFor(env.choices, n, ps))| <= env.capacity {
      PongsArrive(s.link, env.capacity, env.choices, n, ps);
    }
  }

  // ---- The heartbeat -----------------------------------------------------------------------------------------

  /** A new setting takes effect at once: the next call of an idle open connection sends a ping. */
  lemma NewSettingPings(env: Env, s: Session, c: Config, r: Request)
    requires Sound(env, s) && s.Open() && !HasFrame(s.unread) && |s.link.queue| + 2 <= env.capacity
    requires r.ProcessOnce? && r.arrival.Quiet? && !r.tls && Takes(env, Step(env, s, SetHeartbeat(c, true)), r)
    ensures var s' := Step(env, Step(env, s, SetHeartbeat(c, true)), r);
      && s'.link.Stream() == s.link.Stream() + [0x89, 0x00]
      && s'.config == c && s'.enabled && s'.beat.lastPong == 0
      && (r.now > 0 && c.pongTimeoutMs > 0 ==> s'.beat.lastPing == r.now)
  {
    hide Pass, HasFrame, Transmit.Send;
    var s1 := Step(env, s, SetHeartbeat(c, true));
    IdlePass(env, s1, r.now);
    SendAppends(s.link, env.capacity, Ping, r.accept);
    assert PING_FRAME[..2] == [0x89, 0x00];
  }

  /** Without the heartbeat no call sends a ping or times out. */
  lemma DisabledIsSilent(env: Env, s: Session, r: Request)
    requires Sound(env, s) && Takes(env, s, r) && r.ProcessOnce? && !s.enabled
    ensures Step(env, s, r).link == Handling(env, s, r).link && !TimesOut(env, s, r)
  {
    hide Handling, Takes, Transmit.Send;
    HandlingAnswers(env, s, r);
  }

  function After(c: Config, b: Beat, es: seq<Event>): Beat
    decreases |es|
  {
    if es == [] then b else Next(c, After(c, b, es[..|es| - 1]), es[|es| - 1])
  }

  lemma {:induction false} AfterAppend(c: Config, b: Beat, a: seq<Event>, d: seq<Event>)
    ensures After(c, b, a + d) == After(c, After(c, b, a), d)
    decreases |d|
  {
    hide Next;
    if d == [] {
      assert a + d == a;
    } else {
      assert (a + d)[..|a + d| - 1] == a + d[..|d| - 1];
      AfterAppend(c, b, a, d[..|d| - 1]);
    }
  }

  lemma {:induction false} AfterIsStateAt(c: Config, es: seq<Event>, k: nat)
    requires k <= |es|
    ensures After(c, Beat(0, 0), es[..k]) == StateAt(c, es, k)
  {
    hide Next;
    if k == 0 {
    } else {
      AfterIsStateAt(c, es, k - 1);
      assert es[..k][..k - 1] == es[..k - 1];
    }
  }

  /** The heartbeat events of a request: a pong if one was among the frames handled, then the check. */
  ghost function BeatsOf(env: Env, s: Session, r: Request): seq<Event>
    requires Sound(env, s) && Takes(env, s, r)
  {
    if !r.ProcessOnce? then [] else
      HandlingAnswers(env, s, r);
      var h := Handling(env, s, r);
      (if NotePong in h.effects[|s.effects|..] then [Heartbeats.Pong(r.now)] else []) +
      (if h.Open() && s.enabled then [Check(r.now, |h.link.queue| + 2 <= env.capacity)] else [])
  }

  ghost function AllBeats(env: Env, s: Session, rs: seq<Request>): seq<Event>
    requires Sound(env, s) && TakesAll(env, s, rs)
    decreases |rs|
  {
    if rs == [] then [] else BeatsOf(env, s, rs[0]) + AllBeats(env, Step(env, s, rs[0]), rs[1..])
  }

  lemma StepBeats(env: Env, s: Session, r: Request)
    requires Sound(env, s) && Takes(env, s, r) && !r.SetHeartbeat?
    ensures var s' := Step(env, s, r);
      s'.beat == After(s.config, s.beat, BeatsOf(env, s, r)) && s'.config == s.config && s'.enabled == s.enabled
  {
    hide Handling, Takes, Transmit.Send, Next, Replied;
    if r.ProcessOnce? {
      HandlingAnswers(env, s, r);
      var h := Handling(env, s, r);
      var heard := if NotePong in h.effects[|s.effects|..] then [Heartbeats.Pong(r.now)] else [];
      var checked := if h.Open() && s.enabled then [Check(r.now, |h.link.queue| + 2 <= env.capacity)] else [];
      AfterOne(s.config, s.beat, heard);
      AfterOne(s.config, h.beat, checked);
      AfterAppend(s.config, s.beat, heard, checked);
      assert Succeeds(h.link, env.capacity, Ping) <==> |h.link.queue| + 2 <= env.capacity;
    }
  }

  lemma AfterOne(c: Config, b: Beat, es: seq<Event>)
    requires |es| <= 1
    ensures After(c, b, es) == if es == [] then b else Next(c, b, es[0])
  {
    hide Next;
    if es != [] { assert es[..0] == []; assert After(c, b, es[..0]) == b; }
  }

  /**
   The heartbeat of every series of requests is a run of heartbeat events, so that the laws about pings and
   timeouts hold of it.
   */
  lemma {:induction false} RunBeats(env: Env, s: Session, rs: seq<Request>)
    requires Sound(env, s) && TakesAll(env, s, rs)
    requires forall i | 0 <= i < |rs| :: !rs[i].SetHeartbeat?
    ensures RunAll(env, s, rs).beat == After(s.config, s.beat, AllBeats(env, s, rs))
    ensures s.beat == Beat(0, 0) ==>
      RunAll(env, s, rs).beat == StateAt(s.config, AllBeats(env, s, rs), |AllBeats(env, s, rs)|)
    decreases |rs|
  {
    hide Step, Takes, BeatsOf, After, StateAt;
    if rs == [] {
      AfterOne(s.config, s.beat, []);
    } else {
      var s', es := Step(env, s, rs[0]), BeatsOf(env, s, rs[0]);
      StepBeats(env, s, rs[0]);
      RunBeats(env, s', rs[1..]);
      AfterAppend(s.config, s.beat, es, AllBeats(env, s', rs[1..]));
    }
    var all := AllBeats(env, s, rs);
    assert all[..|all|] == all;
    AfterIsStateAt(s.config, all, |all|);
  }
}
