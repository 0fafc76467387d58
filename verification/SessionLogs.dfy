/**
 The life-cycle log tells the truth: its deliveries are the payloads handed out, and it has one entry for each
 frame this client put into its queue.
 */
module SessionLogs {
  import opened Bytes
  import opened RingBuffers
  import opened Receive
  import opened Transmit
  import opened Regions
  import opened Lifecycles
  import opened Heartbeats
  import opened Sessions
  import opened SessionRuns

  function QueuedIn(log: seq<Action>): nat {
    if log == [] then 0 else QueuedIn(log[..|log| - 1]) + if log[|log| - 1].Queued? then 1 else 0
  }

  lemma QueuedSnoc(log: seq<Action>, a: Action)
    ensures QueuedIn(log + [a]) == QueuedIn(log) + if a.Queued? then 1 else 0
  {
    assert (log + [a])[..|log|] == log;
  }

  lemma {:induction false} LogAppend(log: seq<Action>, es: seq<Effect>)
    ensures DeliveredIn(log + ToActions(es)) == DeliveredIn(log) + Payloads(es)
    ensures QueuedIn(log + ToActions(es)) == QueuedIn(log) + |Pongs(es)|
    decreases |es|
  {
    hide DeliveredIn, QueuedIn;
    if es == [] {
      assert log + [] == log && DeliveredIn(log) + [] == DeliveredIn(log);
    } else {
      var a := ToAction(es[0]);
      LogAppend(log + a, es[1..]);
      Assoc(log, a, ToActions(es[1..]));
      if a != [] {
        DeliveredSnoc(log, a[0]);
        QueuedSnoc(log, a[0]);
      }
      assert a == [] ==> log + a == log;
      Assoc(DeliveredIn(log), Receive.Delivered(es[0]), Payloads(es[1..]));
    }
  }

  /** The log has the deliveries of the effects, and k entries for queued frames beside the pongs. */
  ghost predicate Recorded(s: Session, k: nat) {
    && DeliveredIn(s.track.log) == Payloads(s.effects)
    && QueuedIn(s.track.log) == |Pongs(s.effects)| + k
  }

  /** A state change alone is no such entry. */
  lemma MoveRecords(s: Session, t: Track, a: Action, k: nat)
    requires Recorded(s, k) && t.log == s.track.log + [a] && !a.Delivered?
    ensures Recorded(s.(track := t), if a.Queued? then k + 1 else k)
  {
    hide DeliveredIn, QueuedIn, Payloads, Pongs;
    DeliveredSnoc(s.track.log, a);
    QueuedSnoc(s.track.log, a);
    assert DeliveredIn(s.track.log) + [] == DeliveredIn(s.track.log);
  }

  lemma HandledRecords(env: Env, s: Session, ws: seq<WholeFrame>, now: nat, k: nat)
    requires |s.link.queue| <= env.capacity && Recorded(s, k)
    ensures Recorded(Handled(env, s, ws, now), k)
  {
    hide DeliveredIn, QueuedIn, Payloads, Pongs, Effects, OnFrames, ToActions, Answer, StateAfter;
    var es := Effects(s.track.state, ws);
    FramesAsEffects(s.track, ws);
    LogAppend(s.track.log, es);
    PayloadsAppend(s.effects, es);
    PongsAppend(s.effects, es);
  }

  lemma PassRecords(env: Env, s: Session, now: nat, k: nat)
    requires Sound(env, s) && Recorded(s, k)
    ensures Recorded(Pass(env, s, now), k)
  {
    hide Handled, Take, Consumed, PassErrors, DeliveredIn, QueuedIn, Payloads, Pongs;
    var n, q := MAX_PARSE_ATTEMPTS, s.unread;
    HandledRecords(env, Released(env, s, Consumed(q, n)).(errors := s.errors + PassErrors(q)), Take(q, n), now, k);
  }

  lemma ArrivedRecords(env: Env, s: Session, a: Arrival, now: nat, k: nat)
    requires Sound(env, s) && HoldsArrival(env, s, a) && Recorded(s, k)
    ensures Recorded(Arrived(env, s, a, now), k)
  {
    hide Handled, Cut, Rest, DrainErrors, NoOverflow, DeliveredIn, QueuedIn, Payloads, Pongs;
    var s' := Arrived(env, s, a, now);
    if a.Bytes? && s.Open() {
      var s1 := Received(env, s, a.data);
      var q := s1.unread;
      RestIsSettled(q);
      HandledRecords(
        env, Released(env, s1, |q| - |Rest(q)|).(errors := s1.errors + DrainErrors(q)), Cut(q), now, k);
    } else if s'.track != s.track {
      MoveRecords(s, s'.track, if s'.track.state == Connected then Opened else Moved(Closed), k);
    }
  }

  lemma {:induction false} DrainRecords(env: Env, s: Session, now: nat, left: nat, k: nat)
    requires Sound(env, s) && Recorded(s, k)
    ensures Recorded(DrainedTls(env, s, now, left), k)
    decreases left
  {
    hide Pass, Recorded;
    if left == 0 || !s.Open() {
    } else {
      PassRecords(env, s, now, k);
      DrainRecords(env, Pass(env, s, now), now, left - 1, k);
    }
  }

  lemma {:induction false} TlsLoopRecords(
    env: Env, s: Session, inputs: seq<TlsInput>, i: nat, progress: bool, now: nat, k: nat)
    requires Sound(env, s) && HoldsReads(env, s, inputs, i, progress, now) && Recorded(s, k)
    ensures Recorded(TlsLoop(env, s, inputs, i, progress, now), k)
    decreases MAX_TLS_READS - i
  {
    hide Pass, DrainedTls, NoOverflow, DeliveredIn, QueuedIn, Payloads, Pongs;
    if i >= MAX_TLS_READS || !s.Open() {
    } else {
      match ReadAt(inputs, i)
      case Got(data) =>
        var s1 := Received(env, s, data);
        PassRecords(env, s1, now, k);
        DrainRecords(env, Pass(env, s1, now), now, MAX_TLS_DRAINS, k);
        TlsLoopRecords(env, TlsGot(env, s, data, now), inputs, i + 1, true, now, k);
      case NoData =>
        PassRecords(env, s, now, k);
        if progress && i + 1 < 5 { TlsLoopRecords(env, Pass(env, s, now), inputs, i + 1, progress, now, k); }
      case Failed =>
        MoveRecords(s, Move(s.track, Closed), Moved(Closed), k);
        PassRecords(env, s.(track := Move(s.track, Closed)), now, k);
    }
  }

  lemma HandlingRecords(env: Env, s: Session, r: Request, k: nat)
    requires r.ProcessOnce? && Sound(env, s) && Takes(env, s, r) && Recorded(s, k)
    ensures Recorded(Handling(env, s, r), k)
  {
    hide Pass, Arrived, TlsLoop, HoldsArrival, HoldsReads, Recorded;
    var s1 := Arrived(env, s, r.arrival, r.now);
    ArrivedRecords(env, s, r.arrival, r.now, k);
    if r.tls && s1.Open() { TlsLoopRecords(env, s1, r.inputs, 0, false, r.now, k); }
    var s2 := if r.tls && s1.Open() then TlsLoop(env, s1, r.inputs, 0, false, r.now) else s1;
    if s2.Open() { PassRecords(env, s2, r.now, k); }
  }

  /** The frames a request sends of the client's own accord: a message, or a ping that is due. */
  ghost function OwnFrames(env: Env, s: Session, r: Request): nat
    requires Sound(env, s) && Takes(env, s, r)
  {
    if Posts(s, r) then 1
    else if r.ProcessOnce? && PingDue(Handling(env, s, r), r.now) then 1
    else 0
  }

  lemma StepRecords(env: Env, s: Session, r: Request, k: nat)
    requires Sound(env, s) && Takes(env, s, r) && Recorded(s, k)
    ensures Recorded(Step(env, s, r), k + OwnFrames(env, s, r))
  {
    hide Handling, Takes, Transmit.Send, DeliveredIn, QueuedIn, Payloads, Pongs;
    match r
    case ProcessOnce(_, _, _, now, _) =>
      var h := Handling(env, s, r);
      HandlingRecords(env, s, r, k);
      if PingDue(h, now) { MoveRecords(h, Record(h.track, Queued), Queued, k); }
    case SendData(_, _, _) => if Posts(s, r) { MoveRecords(s, Record(s.track, Queued), Queued, k); }
    case CloseDown => if s.track.state != Closed { MoveRecords(s, Move(s.track, Closed), Moved(Closed), k); }
    case SetHeartbeat(_, _) =>
  }

  ghost function AllOwnFrames(env: Env, s: Session, rs: seq<Request>): nat
    requires Sound(env, s) && TakesAll(env, s, rs)
    decreases |rs|
  {
    if rs == [] then 0 else OwnFrames(env, s, rs[0]) + AllOwnFrames(env, Step(env, s, rs[0]), rs[1..])
  }

  /**
   After every series of requests the log's deliveries are the payloads handed out, in order, and its entries for
   queued frames are as many as pongs, pings and messages together.
   */
  lemma {:induction false} LogIsTruthful(env: Env, s: Session, rs: seq<Request>, k: nat)
    requires Sound(env, s) && TakesAll(env, s, rs) && Recorded(s, k)
    ensures Recorded(RunAll(env, s, rs), k + AllOwnFrames(env, s, rs))
    decreases |rs|
  {
    hide Step, Takes, OwnFrames, Recorded;
    if rs == [] {
    } else {
      StepRecords(env, s, rs[0], k);
      LogIsTruthful(env, Step(env, s, rs[0]), rs[1..], k + OwnFrames(env, s, rs[0]));
    }
  }
}
