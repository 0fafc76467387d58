/**
 The peer, written from sections 5.2 and 5.3 of RFC 6455 and not from this client's code: the frames it may
 send, byte by byte, and what it may expect to happen. The receive path is measured against it.
 */
module Peers {
  import opened Bytes
  import opened Frames
  import opened Receive
  import opened Transmit

  /** Any frame: final or not, reserved bits and opcode of any value, masked or not, in any length form that fits. */
  datatype PeerFrame = PeerFrame(fin: bool, rsv: byte, opcode: byte, key: seq<byte>, form: nat, payload: seq<byte>)
  {
    predicate Valid() {
      && rsv <= 7 && opcode <= 15
      && (key == [] || |key| == 4)
      && (form == 7 || form == 16 || form == 64)
      && (form == 7 ==> |payload| < 126)
      && (form == 16 ==> |payload| < 65536)
      && |payload| + 14 < TWO_64
    }
  }

  /** A number in k octets, the most significant first. */
  function Octets(n: nat, k: nat): (s: seq<byte>)
    requires n < Pow256(k)
    ensures |s| == k
  {
    if k == 0 then [] else
      DigitFits(n, Pow256(k - 1));
      [ToByte(n / Pow256(k - 1))] + Octets(n % Pow256(k - 1), k - 1)
  }

  lemma DigitFits(n: nat, p: nat)
    requires 0 < p && n < 256 * p
    ensures n / p < 256 && n % p < p && n == n / p * p + n % p
  {
    MultipleIsFar(n / p - 255, p);
    assert (n / p - 255) * p == n / p * p - 255 * p;
  }

  /** The payload under the key, which turns by one octet with each octet of the payload. */
  function Veiled(d: seq<byte>, key: seq<byte>): (r: seq<byte>)
    requires |key| == 4
    ensures |r| == |d|
  {
    if d == [] then [] else [d[0] ^ key[0]] + Veiled(d[1..], key[1..] + [key[0]])
  }

  /** The first two octets, the extended length, the key. */
  function PeerHeader(f: PeerFrame): seq<byte>
    requires f.Valid()
  {
    WidthBounds();
    var finBit: byte, maskBit: byte := if f.fin then 0x80 else 0x00, if f.key == [] then 0x00 else 0x80;
    var len7: byte := if f.form == 7 then ToByte(|f.payload|) else if f.form == 16 then 126 else 127;
    [finBit | (f.rsv << 4) | f.opcode, maskBit | len7]
    + (if f.form == 7 then [] else Octets(|f.payload|, if f.form == 16 then 2 else 8))
    + f.key
  }

  function PeerBytes(f: PeerFrame): seq<byte>
    requires f.Valid()
  {
    PeerHeader(f) + if f.key == [] then f.payload else Veiled(f.payload, f.key)
  }

  ghost predicate AllValid(fs: seq<PeerFrame>) { forall i | 0 <= i < |fs| :: fs[i].Valid() }

  function PeerStream(fs: seq<PeerFrame>): seq<byte>
    requires AllValid(fs)
  {
    if fs == [] then [] else PeerBytes(fs[0]) + PeerStream(fs[1..])
  }

  // ---- What the peer may expect ------------------------------------------------------------------------------

  /** Opcodes 1 and 2 are messages, 8 is close, 9 ping, 10 pong; the payload meant is the one before masking. */
  function Reaction(st: WsState, f: PeerFrame): seq<Effect> {
    if f.opcode == 1 || f.opcode == 2 then [Deliver(f.payload)]
    else if f.opcode == 8 then [Shut]
    else if f.opcode == 9 && st == Connected then [SendPong(f.payload)]
    else if f.opcode == 10 then [NotePong]
    else []
  }

  function Reactions(st: WsState, fs: seq<PeerFrame>): seq<Effect>
    decreases |fs|
  {
    if fs == [] then [] else Reaction(st, fs[0]) + Reactions(if fs[0].opcode == 8 then Closing else st, fs[1..])
  }

  // ---- The parser on peer frames -----------------------------------------------------------------------------

  lemma {:induction false} OctetsAreBigEndian(n: nat, k: nat)
    requires n < Pow256(k)
    ensures BigEndian(Octets(n, k)) == n
  {
    if k == 0 {
    } else {
      var p := Pow256(k - 1);
      DigitFits(n, p);
      OctetsAreBigEndian(n % p, k - 1);
      BigEndianFirst(ToByte(n / p), n / p, Octets(n % p, k - 1));
    }
  }

  /** The first octet counts most. */
  lemma {:induction false} BigEndianFirst(b: byte, x: nat, d: seq<byte>)
    requires x == b as nat
    ensures BigEndian([b] + d) == x * Pow256(|d|) + BigEndian(d)
    decreases |d|
  {
    hide BigEndian;
    var s := [b] + d;
    if d == [] {
      OneOctet(b, x);
      assert s == [b];
    } else {
      var e, c := d[..|d| - 1], d[|d| - 1];
      var y: nat := LastOctet(s);
      assert s[..|s| - 1] == [b] + e && s[|s| - 1] == c;
      var z: nat := LastOctet(d);
      BigEndianFirst(b, x, e);
      Regroup(x, Pow256(|e|), BigEndian(e), y);
    }
  }

  lemma OneOctet(b: byte, x: nat)
    requires x == b as nat
    ensures BigEndian([b]) == x && BigEndian([]) == 0
  {
    assert [b][..0] == [];
  }

  lemma LastOctet(s: seq<byte>) returns (y: nat)
    requires s != []
    ensures y == s[|s| - 1] as nat && BigEndian(s) == 256 * BigEndian(s[..|s| - 1]) + y
  {
    y := s[|s| - 1] as nat;
  }

  lemma Regroup(x: nat, p: nat, v: nat, y: nat)
    ensures 256 * (x * p + v) + y == x * (256 * p) + (256 * v + y)
  {
    assert 256 * (x * p) == x * (256 * p);
  }

  /** The turning key of the peer is the indexed key of the client. */
  lemma {:induction false} VeiledIsMasked(d: seq<byte>, key: seq<byte>)
    requires |key| == 4
    ensures Veiled(d, key) == Masked(d, key)
  {
    if d == [] {
    } else {
      var turned := key[1..] + [key[0]];
      VeiledIsMasked(d[1..], turned);
      forall i | 0 <= i < |d| ensures Veiled(d, key)[i] == Masked(d, key)[i] {
        if i > 0 { TurnedAt(key, i); }
      }
    }
  }

  lemma TurnedAt(key: seq<byte>, i: nat)
    requires |key| == 4 && i > 0
    ensures (key[1..] + [key[0]])[(i - 1) % 4] == key[i % 4]
  {}

  lemma FirstOctet(fin: bool, rsv: byte, opcode: byte)
    requires rsv <= 7 && opcode <= 15
    ensures var b: byte := (if fin then 0x80 else 0x00) | (rsv << 4) | opcode;
      (b >> 7) & 1 == (if fin then 1 else 0) && b & 0x0F == opcode
  {}

  /** Every field of any frame comes back, at the head of any stream. */
  lemma PeerParses(f: PeerFrame, t: seq<byte>)
    requires f.Valid()
    ensures var h, masked := |PeerHeader(f)|, f.key != [];
      && ParseFrame(PeerBytes(f) + t) == Parsed(Frame(
           if f.fin then 1 else 0, f.opcode, if masked then 1 else 0, f.form, |f.payload|,
           if masked then f.key else [0, 0, 0, 0], h))
      && |PeerBytes(f)| == h + |f.payload| && h <= 14
  {
    hide BigEndian, Octets, PeerBytes, PeerHeader, ParseRest;
    var s, n, k := PeerBytes(f) + t, |f.payload|, Extended(f.form);
    PeerLayout(f, t);
    PeerOctets(f, t);
    WidthBounds();
    if f.form != 7 { OctetsAreBigEndian(n, k); }
    var g := Frame(if f.fin then 1 else 0, f.opcode, if f.key != [] then 1 else 0, f.form, n, NO_KEY, 2 + k);
    assert ParseFrame(s) == ParseRest(s, g);
    PeerRest(f, t, g);
  }

  function Extended(form: nat): nat { if form == 7 then 0 else if form == 16 then 2 else 8 }

  lemma PeerLayout(f: PeerFrame, t: seq<byte>)
    requires f.Valid()
    ensures var s, k := PeerBytes(f) + t, Extended(f.form);
      && |PeerHeader(f)| == 2 + k + |f.key| && |PeerBytes(f)| == |PeerHeader(f)| + |f.payload|
      && s[..2] == PeerHeader(f)[..2]
      && (f.form != 7 ==> |f.payload| < Pow256(k) && s[2..2 + k] == Octets(|f.payload|, k))
      && s[2 + k..2 + k + |f.key|] == f.key
  {
    hide Octets, Veiled;
    WidthBounds();
  }

  /** The bit fields of the first two octets. */
  lemma PeerOctets(f: PeerFrame, t: seq<byte>)
    requires f.Valid()
    ensures var s := PeerBytes(f) + t;
      && |s| >= 2
      && (s[0] >> 7) & 1 == (if f.fin then 1 else 0) && s[0] & 0x0F == f.opcode
      && (s[1] >> 7) & 1 == (if f.key == [] then 0 else 1)
      && (f.form == 7 ==> (s[1] & 0x7F) as nat == |f.payload| && s[1] & 0x7F < 126)
      && (f.form == 16 ==> s[1] & 0x7F == 126) && (f.form == 64 ==> s[1] & 0x7F == 127)
  {
    hide Octets, Veiled;
    FirstOctet(f.fin, f.rsv, f.opcode);
    var maskBit: byte := if f.key == [] then 0x00 else 0x80;
    var len7: byte := if f.form == 7 then ToByte(|f.payload|) else if f.form == 16 then 126 else 127;
    if f.form == 7 { SmallByte(len7); }
    FieldsOfByte1(maskBit, len7);
  }

  lemma PeerRest(f: PeerFrame, t: seq<byte>, g: Frame)
    requires f.Valid() && g.headerSize == 2 + Extended(f.form) && g.payloadLen == |f.payload| && g.key == NO_KEY
    requires g.headerSize <= |PeerBytes(f) + t|
    requires g.mask == if f.key != [] then 1 else 0
    ensures ParseRest(PeerBytes(f) + t, g) == Parsed(g.(
      key := if f.key != [] then f.key else [0, 0, 0, 0], headerSize := |PeerHeader(f)|))
    ensures |PeerHeader(f)| <= 14
  {
    hide PeerBytes, PeerHeader, Octets;
    PeerLayout(f, t);
  }

  /** A frame of the peer is cut off whole, and handled as the peer may expect, whatever the state. */
  lemma PeerFrameArrives(f: PeerFrame, t: seq<byte>, st: WsState)
    requires f.Valid()
    ensures var s := PeerBytes(f) + t;
      && ParseFrame(s).Parsed? && !DeclaresOverflow(s) && HasFrame(s) && Tail(s) == t
      && EffectOf(st, Head(s)) == Reaction(st, f)
      && NextState(st, Head(s)) == if f.opcode == 8 then Closing else st
  {
    hide ParseFrame, DeclaresOverflow, Masked, PeerHeader, Veiled;
    var s := PeerBytes(f) + t;
    PeerParses(f, t);
    SizeFromHeader(s);
    var h := |PeerHeader(f)|;
    if f.key == [] {
      assert s[h..h + |f.payload|] == f.payload;
    } else {
      assert s[h..h + |f.payload|] == Veiled(f.payload, f.key);
      VeiledIsMasked(f.payload, f.key);
      UnmaskMasked(f.payload, f.key);
    }
  }

  /** A whole stream of the peer, with a cut-off frame behind it or not. */
  lemma {:induction false} PeerStreamArrives(fs: seq<PeerFrame>, t: seq<byte>, st: WsState)
    requires AllValid(fs) && !ParseFrame(t).Parsed?
    ensures var s := PeerStream(fs) + t;
      && NoOverflow(s) && |Cut(s)| == |fs| && Rest(s) == t
      && Effects(st, Cut(s)) == Reactions(st, fs)
    decreases |fs|
  {
    hide ParseFrame, HasFrame, Head, Tail, PeerBytes, DeclaresOverflow, EffectOf, NextState, Reaction;
    if fs == [] {
      assert PeerStream(fs) + t == t;
      NotWhole(t);
      NothingToCut(t);
    } else {
      var rest := PeerStream(fs[1..]) + t;
      var s := PeerBytes(fs[0]) + rest;
      Assoc(PeerBytes(fs[0]), PeerStream(fs[1..]), t);
      PeerFrameArrives(fs[0], rest, st);
      PeerStreamArrives(fs[1..], t, if fs[0].opcode == 8 then Closing else st);
      assert Cut(s) == [Head(s)] + Cut(rest);
    }
  }

  lemma NotWhole(t: seq<byte>)
    requires !ParseFrame(t).Parsed?
    ensures !HasFrame(t)
  {}

  // ---- Every stream of the peer ------------------------------------------------------------------------------

  function Texts(fs: seq<PeerFrame>): seq<seq<byte>> {
    if fs == [] then [] else (if fs[0].opcode == 1 || fs[0].opcode == 2 then [fs[0].payload] else []) + Texts(fs[1..])
  }

  /** The payloads of the pings before the first close frame. */
  function Pinged(fs: seq<PeerFrame>): (ps: seq<seq<byte>>)
    ensures AllValid(fs) ==> forall i | 0 <= i < |ps| :: |ps[i]| + 14 < TWO_64
  {
    if fs == [] || fs[0].opcode == 8 then [] else
      (if fs[0].opcode == 9 then [fs[0].payload] else []) + Pinged(fs[1..])
  }

  predicate Closes(fs: seq<PeerFrame>) { exists i | 0 <= i < |fs| :: fs[i].opcode == 8 }

  lemma {:induction false} ReactionsDeliver(st: WsState, fs: seq<PeerFrame>)
    ensures Payloads(Reactions(st, fs)) == Texts(fs)
    ensures Pongs(Reactions(st, fs)) == if st == Connected then Pinged(fs) else []
    decreases |fs|
  {
    hide Payloads, Pongs, Reaction;
    NoEffects();
    if fs == [] {
    } else {
      var st', es := if fs[0].opcode == 8 then Closing else st, Reaction(st, fs[0]);
      ReactionsDeliver(st', fs[1..]);
      PayloadsAppend(es, Reactions(st', fs[1..]));
      PongsAppend(es, Reactions(st', fs[1..]));
      OneReaction(st, fs[0]);
    }
  }

  lemma NoEffects()
    ensures Payloads([]) == [] && Pongs([]) == []
  {}

  lemma OneReaction(st: WsState, f: PeerFrame)
    ensures Payloads(Reaction(st, f)) == if f.opcode == 1 || f.opcode == 2 then [f.payload] else []
    ensures Pongs(Reaction(st, f)) == if f.opcode == 9 && st == Connected then [f.payload] else []
  {
    var es := Reaction(st, f);
    if es != [] { assert es[1..] == []; }
  }

  /**
   Whatever frames the peer sends and however the bytes are cut into reads, the messages delivered are leading
   ones of those sent, all of them unless the peer closes; and the pings before its close are answered, each with
   its own payload.
   */
  lemma PeerIsHeard(fs: seq<PeerFrame>, chunks: seq<seq<byte>>)
    requires AllValid(fs) && Concat(chunks) == PeerStream(fs)
    ensures Payloads(FeedAllEffects(OPEN, chunks)) <= Texts(fs)
    ensures !Closes(fs) ==> Payloads(FeedAllEffects(OPEN, chunks)) == Texts(fs)
    ensures Pongs(FeedAllEffects(OPEN, chunks)) == Pinged(fs)
  {
    hide ParseFrame, Cut, Rest, Effects, NoOverflow, FeedAllEffects, Payloads, Pongs, Messages, PeerStream, HasClose,
      MessageAfterClose;
    TooShortIff([]);
    assert PeerStream(fs) + [] == PeerStream(fs);
    PeerStreamArrives(fs, [], Connected);
    ReactionsDeliver(Connected, fs);
    EffectsDeliverMessages(Connected, Cut(PeerStream(fs)));
    AnyChunking(chunks);
    if !Closes(fs) { PeerDoesNotClose(fs, []); NoCloseNoLoss(Cut(PeerStream(fs))); }
  }

  lemma NoCloseNoLoss(ws: seq<WholeFrame>)
    requires !HasClose(ws)
    ensures !MessageAfterClose(ws)
  {}

  lemma {:induction false} PeerDoesNotClose(fs: seq<PeerFrame>, t: seq<byte>)
    requires AllValid(fs) && !ParseFrame(t).Parsed? && !Closes(fs)
    ensures !HasClose(Cut(PeerStream(fs) + t))
    decreases |fs|
  {
    hide ParseFrame, Cut, Rest, PeerStream, StateAfter, NoOverflow;
    PeerStreamState(fs, t, Connected);
    StateTracksClose(Connected, Cut(PeerStream(fs) + t));
  }

  lemma {:induction false} PeerStreamState(fs: seq<PeerFrame>, t: seq<byte>, st: WsState)
    requires AllValid(fs) && !ParseFrame(t).Parsed?
    ensures StateAfter(st, Cut(PeerStream(fs) + t)) == if Closes(fs) then Closing else st
    decreases |fs|
  {
    hide ParseFrame, HasFrame, Head, Tail, PeerBytes, DeclaresOverflow, EffectOf, NextState, Reaction;
    if fs == [] {
      assert PeerStream(fs) + t == t;
      NotWhole(t);
      NothingToCut(t);
    } else {
      var rest := PeerStream(fs[1..]) + t;
      var s := PeerBytes(fs[0]) + rest;
      var st' := if fs[0].opcode == 8 then Closing else st;
      Assoc(PeerBytes(fs[0]), PeerStream(fs[1..]), t);
      PeerFrameArrives(fs[0], rest, st);
      PeerStreamState(fs[1..], t, st');
      assert Cut(s) == [Head(s)] + Cut(rest);
      assert fs == [fs[0]] + fs[1..];
    }
  }

  // ---- What the peer hears from this client ------------------------------------------------------------------

  function Shortest(n: nat): nat { if n < 126 then 7 else if n < 65536 then 16 else 64 }

  /** What is sent, in the peer's terms: final frames in the shortest form, of which only pongs are masked. */
  function AsPeer(o: Outgoing): (f: PeerFrame)
    requires Sendable(o)
    ensures f.Valid()
  {
    match o
    case Text(d) => PeerFrame(true, 0, 1, [], Shortest(|d|), d)
    case Binary(d) => PeerFrame(true, 0, 2, [], Shortest(|d|), d)
    case Ping => PeerFrame(true, 0, 9, [], 7, [])
    case Pong(d, key) => PeerFrame(true, 0, 10, key, Shortest(|d|), d)
  }

  lemma {:induction false} BigEndianInjective(a: seq<byte>, b: seq<byte>)
    requires |a| == |b| && BigEndian(a) == BigEndian(b)
    ensures a == b
    decreases |a|
  {
    hide BigEndian;
    if a == [] {
    } else {
      var x := LastOctet(a);
      var y := LastOctet(b);
      LastDigit(BigEndian(a[..|a| - 1]), x, BigEndian(b[..|b| - 1]), y);
      SameOctet(a[|a| - 1], b[|b| - 1]);
      BigEndianInjective(a[..|a| - 1], b[..|b| - 1]);
      assert a == a[..|a| - 1] + [a[|a| - 1]] && b == b[..|b| - 1] + [b[|b| - 1]];
    }
  }

  lemma LastDigit(u: nat, x: nat, v: nat, y: nat)
    requires 256 * u + x == 256 * v + y && x < 256 && y < 256
    ensures u == v && x == y
  {}

  lemma SameOctet(a: byte, b: byte)
    requires a as nat == b as nat
    ensures a == b
  {}

  lemma OctetsAgree(n: nat, k: nat)
    requires n < Pow256(k)
    ensures ToBigEndian(n, k) == Octets(n, k)
  {
    OctetsAreBigEndian(n, k);
    BigEndianRoundTrip(n, k);
    BigEndianInjective(ToBigEndian(n, k), Octets(n, k));
  }

  lemma HeaderIsPeers(opcode: byte, key: seq<byte>, payload: seq<byte>)
    requires opcode <= 15 && (key == [] || |key| == 4) && |payload| + 14 < TWO_64
    ensures Header(opcode, if key == [] then 0 else 0x80, |payload|) + key
         == PeerHeader(PeerFrame(true, 0, opcode, key, Shortest(|payload|), payload))
  {
    hide ToBigEndian, Octets;
    WidthBounds();
    var n := |payload|;
    Finals(opcode);
    if n >= 126 { OctetsAgree(n, if n < 65536 then 2 else 8); }
  }

  lemma Finals(opcode: byte)
    ensures 0x80 | ((0 as byte) << 4) | opcode == 0x80 | opcode
  {}

  /** Byte for byte, every frame this client sends is the peer's encoding of it. */
  lemma EncodeIsPeers(o: Outgoing)
    requires Sendable(o)
    ensures Encode(o) == PeerBytes(AsPeer(o))
  {
    hide Header, PeerHeader, Masked, Veiled;
    match o
    case Text(d) => HeaderIsPeers(1, [], d); assert Header(1, 0, |d|) + [] == Header(1, 0, |d|);
    case Binary(d) => HeaderIsPeers(2, [], d); assert Header(2, 0, |d|) + [] == Header(2, 0, |d|);
    case Pong(d, key) => HeaderIsPeers(10, key, d); VeiledIsMasked(d, key);
    case Ping => PingIsPeers();
  }

  lemma PingIsPeers()
    ensures PING_FRAME == PeerBytes(PeerFrame(true, 0, 9, [], 7, []))
  {}

  function AsPeers(os: seq<Outgoing>): (fs: seq<PeerFrame>)
    requires AllSendable(os)
    ensures AllValid(fs)
  {
    if os == [] then [] else [AsPeer(os[0])] + AsPeers(os[1..])
  }

  lemma {:induction false} WireIsPeers(os: seq<Outgoing>)
    requires AllSendable(os)
    ensures Wire(os) == PeerStream(AsPeers(os))
  {
    hide Encode, PeerBytes, AsPeer;
    if os == [] {
    } else {
      EncodeIsPeers(os[0]);
      WireIsPeers(os[1..]);
      assert AsPeers(os)[1..] == AsPeers(os[1..]);
    }
  }

  // ---- Ping and pong -----------------------------------------------------------------------------------------

  /** The pongs the peer may expect: final frames of opcode 10 with the payloads of its pings, under any keys. */
  function PongsFor(choices: nat -> PongChoice, n: nat, ps: seq<seq<byte>>): (fs: seq<PeerFrame>)
    requires forall i | 0 <= i < |ps| :: |ps[i]| + 14 < TWO_64
    ensures AllValid(fs)
    decreases |ps|
  {
    if ps == [] then [] else
      [PeerFrame(true, 0, 10, choices(n).key, Shortest(|ps[0]|), ps[0])] + PongsFor(choices, n + 1, ps[1..])
  }

  /** With room for it, answering pings puts exactly their pongs into the stream. */
  lemma {:induction false} PongsArrive(
    l: Link, capacity: nat, choices: nat -> PongChoice, n: nat, ps: seq<seq<byte>>)
    requires |l.queue| <= capacity && forall i | 0 <= i < |ps| :: |ps[i]| + 14 < TWO_64
    requires |PeerStream(PongsFor(choices, n, ps))| <= capacity - |l.queue|
    ensures Answer(l, capacity, choices, n, ps).Stream() == l.Stream() + PeerStream(PongsFor(choices, n, ps))
    decreases |ps|
  {
    hide Encode, PeerBytes, Send;
    if ps == [] {
      assert l.Stream() + [] == l.Stream();
    } else {
      var o, fs := Pong(ps[0], choices(n).key), PongsFor(choices, n, ps);
      var l' := Send(l, capacity, o, choices(n).accept);
      EncodeIsPeers(o);
      assert fs[1..] == PongsFor(choices, n + 1, ps[1..]);
      var e, rest := PeerBytes(fs[0]), PeerStream(fs[1..]);
      SendAppends(l, capacity, o, choices(n).accept);
      assert e[..|e|] == e;
      QueueAfter(l, capacity, o, choices(n).accept);
      PongsArrive(l', capacity, choices, n + 1, ps[1..]);
      Assoc(l.Stream(), e, rest);
    }
  }

  lemma QueueAfter(l: Link, capacity: nat, o: Outgoing, accept: nat)
    requires Sendable(o) && |l.queue| + |Encode(o)| <= capacity
    ensures |Send(l, capacity, o, accept).queue| <= |l.queue| + |Encode(o)|
  {
    hide Encode;
    SendMoves(l, capacity, o, accept);
  }
}
