/**
 Proof support for the receive path on the ring: the unread region as a stretch of the array, the progress
 of the parse and drain loops over it, and where a series of reads finds room.
 */
module Regions {
  import opened Bytes
  import opened RingBuffers
  import opened Frames
  import opened Receive
  import opened Transmit

  const MAX_PARSE_ATTEMPTS: nat := 1000

  /** One more effect moves the payload count and byte sum by what it delivers. */
  lemma CountersFollow(es: seq<Effect>, e: seq<Effect>)
    requires |e| <= 1
    ensures |Payloads(es + e)| == |Payloads(es)| + (if e != [] && e[0].Deliver? then 1 else 0)
    ensures |Concat(Payloads(es + e))|
         == |Concat(Payloads(es))| + (if e != [] && e[0].Deliver? then |e[0].payload| else 0)
    ensures |Pongs(es + e)| == |Pongs(es)| + (if e != [] && e[0].SendPong? then 1 else 0)
  {
    PayloadsAppend(es, e);
    PongsAppend(es, e);
    if e != [] && e[0].Deliver? {
      assert Payloads(e) == [e[0].payload] + Payloads(e[1..]) == [e[0].payload];
      ConcatSnoc(Payloads(es), e[0].payload);
    } else {
      assert Payloads(e) == [];
      assert Payloads(es) + [] == Payloads(es);
    }
  }

  /** `b` with the bytes from rp on replaced by `mid`. */
  ghost function Splice(b: seq<byte>, rp: nat, mid: seq<byte>): (r: seq<byte>)
    requires rp + |mid| <= |b|
    ensures |r| == |b|
  {
    b[..rp] + mid + b[rp + |mid|..]
  }

  lemma SpliceOwn(b: seq<byte>, rp: nat, n: nat)
    requires rp + n <= |b|
    ensures Splice(b, rp, b[rp..rp + n]) == b
  {}

  lemma SpliceReads(b: seq<byte>, rp: nat, done: seq<byte>, s: seq<byte>)
    requires rp + |done| + |s| <= |b|
    ensures Splice(b, rp, done + s)[rp + |done|..rp + |done| + |s|] == s
  {}

  /** Replacing a stretch inside the spliced region is splicing the changed region. */
  lemma SpliceInside(b: seq<byte>, rp: nat, mid: seq<byte>, from: nat, body: seq<byte>)
    requires rp + |mid| <= |b| && from + |body| <= |mid|
    ensures var a := Splice(b, rp, mid); var at := rp + from;
      a[..at] + body + a[at + |body|..]
        == Splice(b, rp, mid[..from] + body + mid[from + |body|..])
  {}

  /** The parser gives up only below two bytes, and what it finds whole lies inside the input. */
  lemma ParserAnswers(s: seq<byte>)
    ensures ParseFrame(s) == TooShort <==> |s| < 2
    ensures NoOverflow(s) ==> (ParseFrame(s).Parsed? <==> HasFrame(s))
    ensures HasFrame(s) ==>
      var f := ParseFrame(s).frame;
      && Head(s) == WholeFrame(f, s[f.headerSize..f.Size()]) && |f.key| == 4
      && f.Size() == |s| - |Tail(s)| && Tail(s) == s[f.Size()..]
  {
    if HasFrame(s) { ParsedShape(s); }
  }

  /** After handling `handled` frames that occupied `total` bytes, now reading `done`, the rest is still to do. */
  ghost predicate Progress(q: seq<byte>, handled: seq<WholeFrame>, done: seq<byte>, total: nat) {
    && |done| == total <= |q| && |handled| <= MAX_PARSE_ATTEMPTS
    && var left := MAX_PARSE_ATTEMPTS - |handled|;
    && Take(q, MAX_PARSE_ATTEMPTS) == handled + Take(q[total..], left)
    && Consumed(q, MAX_PARSE_ATTEMPTS) == total + Consumed(q[total..], left)
    && Image(q, MAX_PARSE_ATTEMPTS) == done + Image(q[total..], left)
    && NoOverflow(q[total..])
  }

  lemma ProgressStart(q: seq<byte>)
    requires NoOverflow(q)
    ensures Progress(q, [], [], 0)
  {
    assert q[0..] == q;
  }

  lemma ProgressBounds(q: seq<byte>, handled: seq<WholeFrame>, done: seq<byte>, total: nat)
    requires Progress(q, handled, done, total)
    ensures |done| == total <= |q| && |handled| <= MAX_PARSE_ATTEMPTS && NoOverflow(q[total..])
  {}

  lemma UnfoldStep(s: seq<byte>, left: nat)
    requires HasFrame(s) && left > 0
    ensures Take(s, left) == [Head(s)] + Take(Tail(s), left - 1)
    ensures Consumed(s, left) == |s| - |Tail(s)| + Consumed(Tail(s), left - 1)
    ensures Image(s, left) == Front(s) + Image(Tail(s), left - 1)
    ensures NoOverflow(s) ==> NoOverflow(Tail(s))
  {
    hide ParseFrame, Front, Head, Tail;
  }

  lemma ProgressStep(q: seq<byte>, handled: seq<WholeFrame>, done: seq<byte>, total: nat)
    requires Progress(q, handled, done, total) && HasFrame(q[total..]) && |handled| < MAX_PARSE_ATTEMPTS
    ensures var s := q[total..];
      Progress(q, handled + [Head(s)], done + Front(s), total + |s| - |Tail(s)|)
  {
    hide ParseFrame, HasFrame, Front, Head, Tail, Take, Consumed, Image, NoOverflow;
    var s, left := q[total..], MAX_PARSE_ATTEMPTS - |handled|;
    ParserAnswers(s);
    UnfoldStep(s, left);
    assert q[total + |s| - |Tail(s)|..] == s[|s| - |Tail(s)|..];
    Assoc(handled, [Head(s)], Take(Tail(s), left - 1));
    Assoc(done, Front(s), Image(Tail(s), left - 1));
  }

  lemma ProgressEnd(q: seq<byte>, handled: seq<WholeFrame>, done: seq<byte>, total: nat)
    requires Progress(q, handled, done, total)
    requires |handled| == MAX_PARSE_ATTEMPTS || !HasFrame(q[total..])
    ensures Take(q, MAX_PARSE_ATTEMPTS) == handled && Consumed(q, MAX_PARSE_ATTEMPTS) == total
    ensures Image(q, MAX_PARSE_ATTEMPTS) == done + q[total..]
  {
    hide ParseFrame;
  }

  lemma NothingHandled(st: WsState)
    ensures StateAfter(st, []) == st && Effects(st, []) == []
  {}

  lemma HandleOneMore(st: WsState, ws: seq<WholeFrame>, w: WholeFrame)
    ensures StateAfter(st, ws + [w]) == NextState(StateAfter(st, ws), w)
    ensures Effects(st, ws + [w]) == Effects(st, ws) + EffectOf(StateAfter(st, ws), w)
  {
    HandleAppend(st, ws, [w]);
    var st' := StateAfter(st, ws);
    assert [w][1..] == [];
    assert Effects(st', [w]) == EffectOf(st', w) + [] == EffectOf(st', w);
  }

  /** The bytes of a ring whose unread region reads done + s, once the frame at the head of s is handled. */
  lemma SpliceFrame(b: seq<byte>, rp: nat, done: seq<byte>, s: seq<byte>)
    requires HasFrame(s) && rp + |done| + |s| <= |b|
    ensures var a := Splice(b, rp, done + s); var at := rp + |done| + Head(s).frame.headerSize;
      && a[at..at + |Head(s).raw|] == Head(s).raw
      && a[..at] + Head(s).Body() + a[at + |Head(s).raw|..]
           == Splice(b, rp, done + Front(s) + Tail(s))
  {
    hide ParseFrame, Head, Tail, Splice;
    ParserAnswers(s);
    var w := Head(s);
    SpliceMiddle(b, rp, done, s[..w.frame.headerSize], w.raw, w.Body(), Tail(s));
    assert s == s[..w.frame.headerSize] + w.raw + Tail(s);
  }

  lemma SpliceMiddle(
    b: seq<byte>, rp: nat, done: seq<byte>, h: seq<byte>, raw: seq<byte>, body: seq<byte>, t: seq<byte>)
    requires |raw| == |body| && rp + |done| + |h| + |raw| + |t| <= |b|
    ensures var a := Splice(b, rp, done + (h + raw + t)); var at := rp + |done| + |h|;
      && a[at..at + |raw|] == raw
      && a[..at] + body + a[at + |raw|..] == Splice(b, rp, done + (h + body) + t)
  {
    var mid := done + (h + raw + t);
    SpliceInside(b, rp, mid, |done| + |h|, body);
    assert mid[..|done| + |h|] == done + h && mid[|done| + |h| + |raw|..] == t;
    Assoc(done, h, body);
  }

  lemma EmptyRegion(b: seq<byte>, rp: nat, q: seq<byte>)
    requires q == [] && rp < |b|
    ensures Take(q, MAX_PARSE_ATTEMPTS) == [] && Consumed(q, MAX_PARSE_ATTEMPTS) == 0
    ensures Splice(b, rp, Image(q, MAX_PARSE_ATTEMPTS)) == b
  {}

  /** Releasing the consumed bytes leaves exactly the unconsumed ones, untouched by the unmasking. */
  lemma ReleaseFront(b: seq<byte>, rp: nat, wp: nat, q: seq<byte>)
    requires rp < |b| && wp < |b| && rp + Filled(|b|, rp, wp) <= |b|
    requires q == b[rp..rp + Filled(|b|, rp, wp)]
    ensures var k := Consumed(q, MAX_PARSE_ATTEMPTS);
      var b', rp' := Splice(b, rp, Image(q, MAX_PARSE_ATTEMPTS)), Advance(|b|, rp, k);
      && Filled(|b|, rp', wp) == |q| - k
      && rp' + |q| - k <= |b|
      && Window(b', rp', |q| - k) == q[k..]
  {
    hide ParseFrame, HasFrame, Image, Consumed, Splice, Window, Filled, Advance;
    var k, image := Consumed(q, MAX_PARSE_ATTEMPTS), Image(q, MAX_PARSE_ATTEMPTS);
    ImageKeepsRest(q, MAX_PARSE_ATTEMPTS);
    LinearAdvance(|b|, rp, wp, k);
    if k < |q| { WindowInSplice(b, rp, image, k); }
  }

  lemma WindowInSplice(b: seq<byte>, rp: nat, mid: seq<byte>, k: nat)
    requires rp + |mid| <= |b| && k < |mid|
    ensures Window(Splice(b, rp, mid), rp + k, |mid| - k) == mid[k..]
  {
    SpliceReads(b, rp, mid[..k], mid[k..]);
    assert mid[..k] + mid[k..] == mid;
  }

  lemma LinearAdvance(size: nat, rp: nat, wp: nat, k: nat)
    requires rp < size && wp < size && rp + Filled(size, rp, wp) <= size && k <= Filled(size, rp, wp)
    ensures var rp' := Advance(size, rp, k);
      && Filled(size, rp', wp) == Filled(size, rp, wp) - k
      && (k < Filled(size, rp, wp) ==> rp' == rp + k)
      && rp' + Filled(size, rp', wp) <= size
  {}

  // ---- What handling frames does to state, log and link ------------------------------------------------

  datatype Snap = Snap(state: WsState, log: seq<Effect>, link: Link)

  /** Handling the frames ws leads from a to b. */
  ghost predicate Reaches(capacity: nat, choices: nat -> PongChoice, a: Snap, ws: seq<WholeFrame>, b: Snap) {
    && b.state == StateAfter(a.state, ws)
    && b.log == a.log + Effects(a.state, ws)
    && Replied(capacity, choices, a.link, a.log, b.log, b.link)
  }

  lemma ReachesNothing(capacity: nat, choices: nat -> PongChoice, a: Snap)
    requires |a.link.queue| <= capacity
    ensures Reaches(capacity, choices, a, [], a)
  {
    RepliedNothing(capacity, choices, a.link, a.log);
    assert a.log + [] == a.log;
  }

  lemma ReachesOne(capacity: nat, choices: nat -> PongChoice, a: Snap, w: WholeFrame, b: Snap)
    requires b.state == NextState(a.state, w) && b.log == a.log + EffectOf(a.state, w)
    requires Replied(capacity, choices, a.link, a.log, b.log, b.link)
    ensures Reaches(capacity, choices, a, [w], b)
  {
    hide Replied, EffectOf, NextState;
    HandleOneMore(a.state, [], w);
    NothingHandled(a.state);
    assert [] + [w] == [w];
  }

  lemma ReachesThen(
    capacity: nat, choices: nat -> PongChoice,
    a: Snap, ws: seq<WholeFrame>, b: Snap, us: seq<WholeFrame>, c: Snap)
    requires Reaches(capacity, choices, a, ws, b) && Reaches(capacity, choices, b, us, c)
    ensures Reaches(capacity, choices, a, ws + us, c)
  {
    hide Replied, Effects, StateAfter;
    HandleAppend(a.state, ws, us);
    Assoc(a.log, Effects(a.state, ws), Effects(b.state, us));
    RepliedThen(capacity, choices, a.link, a.log, b.link, b.log, c.link, c.log);
  }

  // ---- The drain loop -------------------------------------------------------------------------------------

  /** `ws` has been cut off the front of q and `rest` is what is left to cut. */
  ghost predicate Draining(q: seq<byte>, ws: seq<WholeFrame>, rest: seq<byte>) {
    Cut(q) == ws + Cut(rest) && Rest(q) == Rest(rest)
  }

  lemma DrainStep(q: seq<byte>, ws: seq<WholeFrame>, rest: seq<byte>)
    requires Draining(q, ws, rest)
    ensures var n := MAX_PARSE_ATTEMPTS; Draining(q, ws + Take(rest, n), rest[Consumed(rest, n)..])
  {
    hide ParseFrame, Cut, Rest, Take, Consumed;
    var n := MAX_PARSE_ATTEMPTS;
    TakeThenCut(rest, n);
    Assoc(ws, Take(rest, n), Cut(rest[Consumed(rest, n)..]));
  }

  lemma DrainEnd(q: seq<byte>, ws: seq<WholeFrame>, rest: seq<byte>)
    requires Draining(q, ws, rest) && !HasFrame(rest)
    ensures Cut(q) == ws && Rest(q) == rest
  {
    hide ParseFrame;
  }

  /** After m passes over q. */
  ghost predicate Passed(size: nat, rp0: nat, q: seq<byte>, m: nat, rest: seq<byte>, rp: nat)
    requires rp0 < size && |q| < size
  {
    var k := Consumed(q, m * MAX_PARSE_ATTEMPTS);
    rest == q[k..] && rp == Advance(size, rp0, k)
  }

  lemma PassedNone(size: nat, rp0: nat, q: seq<byte>)
    requires rp0 < size && |q| < size
    ensures Passed(size, rp0, q, 0, q, rp0) && Take(q, 0 * MAX_PARSE_ATTEMPTS) == []
  {
    assert q[0..] == q;
  }

  lemma PassedMore(size: nat, rp0: nat, q: seq<byte>, m: nat, rest: seq<byte>, rp: nat)
    requires rp0 < size && |q| < size && rp0 + |q| <= size && Passed(size, rp0, q, m, rest, rp)
    ensures var n := MAX_PARSE_ATTEMPTS;
      && rp < size
      && Passed(size, rp0, q, m + 1, rest[Consumed(rest, n)..], Advance(size, rp, Consumed(rest, n)))
      && Take(q, (m + 1) * n) == Take(q, m * n) + Take(rest, n)
  {
    hide ParseFrame, Take, Consumed;
    TakeMore(q, m * MAX_PARSE_ATTEMPTS, MAX_PARSE_ATTEMPTS);
  }

  /** Whether one pass over s counts a parse error: it gets past the frames and finds a single byte. */
  function PassErrors(s: seq<byte>): nat {
    var n := MAX_PARSE_ATTEMPTS;
    if |Take(s, n)| < n && |s| - Consumed(s, n) == 1 then 1 else 0
  }

  /** The errors counted by the drain loop: it passes over s until a pass consumes nothing. */
  function LoopErrors(s: seq<byte>): nat
    decreases |s|
  {
    var k := Consumed(s, MAX_PARSE_ATTEMPTS);
    PassErrors(s) + if k == 0 then 0 else LoopErrors(s[k..])
  }

  /** A pass takes the frame limit or all there are. */
  lemma {:induction false} TakeCount(s: seq<byte>, n: nat)
    ensures |Take(s, n)| == Min(n, |Cut(s)|)
    ensures |Cut(s[Consumed(s, n)..])| == |Cut(s)| - |Take(s, n)|
    ensures |Take(s, n)| < n ==> s[Consumed(s, n)..] == Rest(s)
    decreases n
  {
    hide ParseFrame, HasFrame, Head, Tail;
    if n > 0 && HasFrame(s) {
      TakeCount(Tail(s), n - 1);
      DropTail(s, n);
      CutStep(s);
    } else {
      assert s[0..] == s;
      if !HasFrame(s) { NothingToCut(s); }
    }
  }

  /** Passes with limits a and b make one pass with the sum of the limits. */
  lemma {:induction false} TakeMore(s: seq<byte>, a: nat, b: nat)
    ensures var rest := s[Consumed(s, a)..];
      && Take(s, a + b) == Take(s, a) + Take(rest, b)
      && Consumed(s, a + b) == Consumed(s, a) + Consumed(rest, b)
    decreases a
  {
    hide ParseFrame, HasFrame, Head, Tail;
    if a > 0 && HasFrame(s) {
      TakeMore(Tail(s), a - 1, b);
      DropTail(s, a);
      Assoc([Head(s)], Take(Tail(s), a - 1), Take(s[Consumed(s, a)..], b));
    } else {
      assert s[0..] == s;
    }
  }

  /** A lone tail byte is counted by every pass that reaches it: once, or twice if frames were left for that pass. */
  lemma {:induction false} LoopErrorsExactly(s: seq<byte>)
    ensures LoopErrors(s) == if |Rest(s)| != 1 then 0 else if |Cut(s)| % MAX_PARSE_ATTEMPTS == 0 then 1 else 2
    decreases |s|
  {
    hide ParseFrame, HasFrame, Cut, Rest, Take, Consumed;
    var n := MAX_PARSE_ATTEMPTS;
    var k := Consumed(s, n);
    TakeCount(s, n);
    TakeThenCut(s, n);
    PassConsumes(s, n);
    if k == 0 {
    } else {
      LoopErrorsExactly(s[k..]);
    }
  }

  /** The drain passes once before its loop. */
  function DrainErrors(q: seq<byte>): nat {
    PassErrors(q) + LoopErrors(q[Consumed(q, MAX_PARSE_ATTEMPTS)..])
  }

  /** The whole drain counts a lone tail byte twice, or once if the frames before it fill all its passes. */
  lemma DrainErrorsExactly(q: seq<byte>)
    ensures DrainErrors(q)
         == if |Rest(q)| != 1 then 0 else if 0 < |Cut(q)| && |Cut(q)| % MAX_PARSE_ATTEMPTS == 0 then 1 else 2
  {
    hide ParseFrame, HasFrame, Cut, Rest, Take, Consumed;
    var n := MAX_PARSE_ATTEMPTS;
    TakeCount(q, n);
    TakeThenCut(q, n);
    LoopErrorsExactly(q[Consumed(q, n)..]);
  }

  lemma DrainErrorsSplit(q: seq<byte>)
    ensures DrainErrors(q) == PassErrors(q) + LoopErrors(q[Consumed(q, MAX_PARSE_ATTEMPTS)..])
  {}

  lemma LoopErrorsSplit(s: seq<byte>)
    ensures var k := Consumed(s, MAX_PARSE_ATTEMPTS);
      && LoopErrors(s) == PassErrors(s) + (if k == 0 then 0 else LoopErrors(s[k..]))
      && (k == 0 ==> !HasFrame(s) && s[k..] == s)
      && (k != 0 ==> |s[k..]| < |s|)
  {
    hide ParseFrame;
  }

  lemma DrainStart(q: seq<byte>)
    ensures Draining(q, [], q)
  {
    assert [] + Cut(q) == Cut(q);
  }

  lemma PassConsumes(s: seq<byte>, n: nat)
    requires n > 0
    ensures Consumed(s, n) == 0 <==> |Take(s, n)| == 0
  {
    hide ParseFrame, Head, Tail;
  }

  /** Where the read index stands after a read event. */
  ghost function ReleasedTo(size: nat, rp: nat, c: Conn, data: seq<byte>): (rp': nat)
    requires rp < size && |c.pending| + |data| < size
    ensures rp' < size
  {
    RestIsSettled(c.pending + data);
    Advance(size, rp, |c.pending| + |data| - |Feed(c, data).pending|)
  }

  /** Every chunk of the series finds room, short of a full ring and of the end of the array. */
  ghost predicate Fits(size: nat, rp: nat, c: Conn, chunks: seq<seq<byte>>)
    requires rp < size
    decreases |chunks|
  {
    chunks != [] ==>
      && rp + |c.pending| + |chunks[0]| <= size
      && |c.pending| + |chunks[0]| < size
      && Fits(size, ReleasedTo(size, rp, c, chunks[0]), Feed(c, chunks[0]), chunks[1..])
  }

  /**
   The same in terms of what the ring offers: every read stays within the offer, none but an empty one comes
   while the write index has wrapped to 0 and bytes are unread before the end, and none fills the ring.
   */
  ghost predicate WithinOffers(size: nat, rp: nat, c: Conn, chunks: seq<seq<byte>>)
    requires rp < size && |c.pending| < size
    decreases |chunks|
  {
    chunks != [] ==>
      var wp, n := Advance(size, rp, |c.pending|), |chunks[0]|;
      && n <= WriteView(size, rp, wp).1
      && (n == 0 || wp != 0 || rp == 0)
      && |c.pending| + n != size
      && (RestIsSettled(c.pending + chunks[0]);
          WithinOffers(size, ReleasedTo(size, rp, c, chunks[0]), Feed(c, chunks[0]), chunks[1..]))
  }

  /** Exactly such series fit, however often the ring wraps. */
  lemma {:induction false} FitsIff(size: nat, rp: nat, c: Conn, chunks: seq<seq<byte>>)
    requires rp < size && |c.pending| < size && rp + |c.pending| <= size
    ensures Fits(size, rp, c, chunks) <==> WithinOffers(size, rp, c, chunks)
    decreases |chunks|
  {
    hide ParseFrame, Cut, Rest, Feed, ReleasedTo;
    if chunks == [] {
    } else {
      var data := chunks[0];
      RoomIff(size, rp, |c.pending|, |data|);
      if rp + |c.pending| + |data| <= size && |c.pending| + |data| < size {
        StaysLinear(size, rp, c, data);
        FitsIff(size, ReleasedTo(size, rp, c, data), Feed(c, data), chunks[1..]);
      }
    }
  }

  lemma RoomIff(size: nat, rp: nat, k: nat, n: nat)
    requires rp < size && k < size && rp + k <= size
    ensures rp + k + n <= size && k + n < size <==>
      var wp := Advance(size, rp, k);
      && n <= WriteView(size, rp, wp).1 && (n == 0 || wp != 0 || rp == 0) && k + n != size
  {}

  lemma StaysLinear(size: nat, rp: nat, c: Conn, data: seq<byte>)
    requires rp < size && rp + |c.pending| + |data| <= size && |c.pending| + |data| < size
    ensures var rp', c' := ReleasedTo(size, rp, c, data), Feed(c, data);
      rp' < size && |c'.pending| < size && rp' + |c'.pending| <= size
  {
    RestIsSettled(c.pending + data);
    hide ParseFrame, Cut, Rest;
  }

  /** A stream that ends before the ring wraps for the first time always fits, however it is cut. */
  lemma {:induction false} FitsBeforeWrap(size: nat, rp: nat, c: Conn, chunks: seq<seq<byte>>)
    requires rp < size && rp + |c.pending| + |Concat(chunks)| < size
    ensures Fits(size, rp, c, chunks)
    decreases |chunks|
  {
    if chunks == [] {
    } else {
      RestIsSettled(c.pending + chunks[0]);
      hide ParseFrame, Cut, Rest, Feed;
      FitsBeforeWrap(size, ReleasedTo(size, rp, c, chunks[0]), Feed(c, chunks[0]), chunks[1..]);
    }
  }

  /** The first i chunks have led to connection c and effects es; the rest is still to come. */
  ghost predicate Ongoing(chunks: seq<seq<byte>>, i: nat, c: Conn, es: seq<Effect>)
    requires i <= |chunks|
  {
    && FeedAll(OPEN, chunks) == FeedAll(c, chunks[i..])
    && FeedAllEffects(OPEN, chunks) == es + FeedAllEffects(c, chunks[i..])
    && NoOverflow(c.pending + Concat(chunks[i..]))
  }

  lemma ReceiveStart(chunks: seq<seq<byte>>)
    requires NoOverflow(Concat(chunks))
    ensures Ongoing(chunks, 0, OPEN, []) && chunks[0..] == chunks
  {
    assert chunks[0..] == chunks && [] + Concat(chunks) == Concat(chunks);
  }

  lemma ReceiveStep(size: nat, rp: nat, chunks: seq<seq<byte>>, i: nat, c: Conn, es: seq<Effect>)
    requires i < |chunks| && rp < size && Ongoing(chunks, i, c, es) && Fits(size, rp, c, chunks[i..])
    ensures rp + |c.pending| + |chunks[i]| <= size && |c.pending| + |chunks[i]| < size
    ensures NoOverflow(c.pending + chunks[i])
    ensures Ongoing(chunks, i + 1, Feed(c, chunks[i]), es + FeedEffects(c, chunks[i]))
    ensures Fits(size, ReleasedTo(size, rp, c, chunks[i]), Feed(c, chunks[i]), chunks[i + 1..])
  {
    hide ParseFrame, HasFrame, Cut, Rest, Effects, StateAfter, NoOverflow, FeedEffects, ReleasedTo;
    var data, later := chunks[i], Concat(chunks[i + 1..]);
    assert chunks[i..][0] == data && chunks[i..][1..] == chunks[i + 1..];
    Assoc(c.pending, data, later);
    NoOverflowSplits(c.pending + data, later);
    Assoc(es, FeedEffects(c, data), FeedAllEffects(Feed(c, data), chunks[i + 1..]));
  }

  lemma ReceiveEnd(chunks: seq<seq<byte>>, c: Conn, es: seq<Effect>)
    requires Ongoing(chunks, |chunks|, c, es)
    ensures FeedAll(OPEN, chunks) == c && FeedAllEffects(OPEN, chunks) == es
  {
    hide ParseFrame, NoOverflow;
    assert chunks[|chunks|..] == [];
  }

  lemma OfferedEnough(size: nat, rp: nat, wp: nat, n: nat)
    requires rp < size && wp < size
    requires rp + Filled(size, rp, wp) + n <= size && Filled(size, rp, wp) + n < size
    ensures n <= WriteView(size, rp, wp).1
    ensures var wp' := Committed(size, wp, n); Filled(size, rp, wp') == Filled(size, rp, wp) + n
  {
    CommitFill(size, rp, wp, n);
  }
}
