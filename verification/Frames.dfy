/**
 The frame codec: the parser of src/parser_neon.c and the headers built by websocket_send and
 websocket_send_pong in src/websocket.c. The framing is that of sections 5.2 and 5.3 of RFC 6455.

 Sizes are 64-bit in the C code. The parser adds header and payload length without an overflow
 check, so the sum is taken modulo 2^64 here as well.
 */
module Frames {
  import opened Bytes

  const OPCODE_TEXT: byte := 0x1
  const OPCODE_BINARY: byte := 0x2
  const OPCODE_CLOSE: byte := 0x8
  const OPCODE_PING: byte := 0x9
  const OPCODE_PONG: byte := 0xA

  /** `key` is the masking key as it lies in memory; all zero for an unmasked frame. */
  datatype Frame = Frame(
    fin: byte, opcode: byte, mask: byte,
    lenType: nat, payloadLen: nat, key: seq<byte>, headerSize: nat)
  {
    /** The true size of the frame, before any wrap-around. */
    function Size(): nat { headerSize + payloadLen }
  }

  /** The parser's three answers: -1, 1 and 0. */
  datatype Parse = TooShort | NeedMore | Parsed(frame: Frame)

  const NO_KEY: seq<byte> := [0, 0, 0, 0]

  // ---- Big-endian lengths ---------------------------------------------------------------------

  function BigEndian(s: seq<byte>): nat {
    if s == [] then 0 else 256 * BigEndian(s[..|s| - 1]) + s[|s| - 1] as nat
  }

  function ToBigEndian(n: nat, k: nat): (s: seq<byte>)
    ensures |s| == k
  {
    if k == 0 then [] else ToBigEndian(n / 256, k - 1) + [ToByte(n % 256)]
  }

  function Pow256(k: nat): nat { if k == 0 then 1 else 256 * Pow256(k - 1) }

  lemma {:induction false} BigEndianRoundTrip(n: nat, k: nat)
    requires n < Pow256(k)
    ensures BigEndian(ToBigEndian(n, k)) == n
  {
    if k == 0 {
    } else {
      BigEndianRoundTrip(n / 256, k - 1);
      assert ToBigEndian(n, k)[..k - 1] == ToBigEndian(n / 256, k - 1);
    }
  }

  lemma {:induction false} BigEndianBound(s: seq<byte>)
    ensures BigEndian(s) < Pow256(|s|)
  {
    if s == [] {
    } else {
      BigEndianBound(s[..|s| - 1]);
    }
  }

  lemma WidthBounds()
    ensures Pow256(2) == 65536 && Pow256(8) == TWO_64 == 256 * Pow256(7)
  {
    assert Pow256(2) == 256 * Pow256(1) && Pow256(1) == 256 * Pow256(0);
    assert Pow256(4) == 256 * Pow256(3) && Pow256(3) == 256 * Pow256(2);
    assert Pow256(6) == 256 * Pow256(5) && Pow256(5) == 256 * Pow256(4);
    assert Pow256(8) == 256 * Pow256(7) && Pow256(7) == 256 * Pow256(6);
  }

  // ---- The parser -------------------------------------------------------------------------------

  /** The last two steps: fetch the masking key if there is one, then check for the whole frame. */
  function ParseRest(s: seq<byte>, f: Frame): Parse
    requires f.headerSize <= |s|
  {
    if f.mask != 0 then
      if |s| < f.headerSize + 4 then NeedMore
      else CheckWhole(s, f.(key := s[f.headerSize..f.headerSize + 4], headerSize := f.headerSize + 4))
    else
      CheckWhole(s, f)
  }

  function CheckWhole(s: seq<byte>, f: Frame): Parse {
    var totalFrameSize := (f.headerSize + f.payloadLen) % TWO_64;
    if |s| < totalFrameSize then NeedMore else Parsed(f)
  }

  function ParseFrame(s: seq<byte>): Parse {
    if |s| < 2 then TooShort else
    var fin, opcode, mask := (s[0] >> 7) & 1, s[0] & 0x0F, (s[1] >> 7) & 1;
    var len7 := s[1] & 0x7F;
    if len7 == 126 then
      if |s| < 4 then NeedMore
      else ParseRest(s, Frame(fin, opcode, mask, 16, BigEndian(s[2..4]), NO_KEY, 4))
    else if len7 == 127 then
      if |s| < 10 then NeedMore
      else ParseRest(s, Frame(fin, opcode, mask, 64, BigEndian(s[2..10]), NO_KEY, 10))
    else
      ParseRest(s, Frame(fin, opcode, mask, 7, len7 as nat, NO_KEY, 2))
  }

  /** What every successful parse returns, whatever the input. */
  lemma ParsedShape(s: seq<byte>)
    requires ParseFrame(s).Parsed?
    ensures var f := ParseFrame(s).frame;
      && 2 <= f.headerSize <= Min(14, |s|) && |f.key| == 4
      && f.payloadLen < TWO_64
      && f.Size() % TWO_64 <= |s|
  {
    WidthBounds();
    if |s| >= 4 { BigEndianBound(s[2..4]); }
    if |s| >= 10 { BigEndianBound(s[2..10]); }
  }

  /** The header alone shows that the size computation overflows: an extended length within a header of 2^64. */
  predicate DeclaresOverflow(s: seq<byte>) {
    && |s| >= 10 && s[1] & 0x7F == 127
    && BigEndian(s[2..10]) + (if (s[1] >> 7) & 1 != 0 then 14 else 10) >= TWO_64
  }

  lemma SizeFromHeader(s: seq<byte>)
    requires ParseFrame(s).Parsed?
    ensures ParseFrame(s).frame.Size() < TWO_64 <==> !DeclaresOverflow(s)
  {
    WidthBounds();
    BigEndianBound(s[2..Min(|s|, 4)]);
    if s[1] & 0x7F == 127 { BigEndianBound(s[2..10]); }
  }

  /** A frame the parser accepts lies inside the input exactly if its header does not declare an overflow. */
  lemma ParsedFitsIffNoOverflow(s: seq<byte>)
    requires ParseFrame(s).Parsed? && |s| < TWO_64
    ensures ParseFrame(s).frame.Size() <= |s| <==> !DeclaresOverflow(s)
  {
    hide ParseFrame, DeclaresOverflow;
    ParsedShape(s);
    SizeFromHeader(s);
  }

  lemma {:induction false} LeadingByteBounds(d: seq<byte>)
    requires d != []
    ensures BigEndian(d) < (d[0] as nat + 1) * Pow256(|d| - 1)
  {
    var n := |d| - 1;
    if n == 0 {
      assert d[..0] == [];
    } else {
      LeadingByteBounds(d[..n]);
      ScaleBy256(d[0] as nat + 1, Pow256(n - 1), BigEndian(d[..n]), d[n] as nat);
    }
  }

  lemma ScaleBy256(x: nat, p: nat, b: nat, last: nat)
    requires b < x * p && last < 256
    ensures 256 * b + last < x * (256 * p)
  {
    assert x * (256 * p) == 256 * (x * p);
  }

  /** The rule of section 5.2 of RFC 6455 that the top bit of a 64-bit length is 0 rules the overflow out. */
  lemma TopBitClear(s: seq<byte>)
    requires |s| >= 10 && s[2] as nat < 128
    ensures !DeclaresOverflow(s)
  {
    hide BigEndian;
    var d := s[2..10];
    LeadingByteBounds(d);
    WidthBounds();
    assert (d[0] as nat + 1) * Pow256(7) <= 128 * Pow256(7);
  }

  function Ones(k: nat): (s: seq<byte>)
    ensures |s| == k
  {
    if k == 0 then [] else Ones(k - 1) + [0xFF]
  }

  lemma {:induction false} OnesIsMaximal(k: nat)
    ensures BigEndian(Ones(k)) == Pow256(k) - 1
  {
    if k == 0 {
    } else {
      OnesIsMaximal(k - 1);
      assert Ones(k)[..k - 1] == Ones(k - 1);
    }
  }

  /** Ten bytes that the parser accepts as a whole frame with a payload of 2^64 - 1 bytes. */
  lemma OverflowingFrame()
    ensures var s := [0x81, 0x7F] + Ones(8);
      && ParseFrame(s).Parsed? && ParseFrame(s).frame.payloadLen == TWO_64 - 1
      && DeclaresOverflow(s) && ParseFrame(s).frame.Size() > |s|
  {
    var s := [0x81, 0x7F] + Ones(8);
    FieldsOfByte1(0, 0x7F);
    assert s[2..10] == Ones(8);
    OnesIsMaximal(8);
    WidthBounds();
  }

  lemma RestExtends(s: seq<byte>, t: seq<byte>, f: Frame)
    requires f.headerSize <= |s| && ParseRest(s, f).Parsed?
    ensures ParseRest(s + t, f) == ParseRest(s, f)
  {
    if f.mask != 0 {
      assert (s + t)[f.headerSize..f.headerSize + 4] == s[f.headerSize..f.headerSize + 4];
    }
  }

  /** A successful parse gives the same frame on every extension of the input. */
  lemma ParseExtends(s: seq<byte>, t: seq<byte>)
    requires ParseFrame(s).Parsed?
    ensures ParseFrame(s + t) == ParseFrame(s)
  {
    hide ParseRest, CheckWhole;
    var fin, opcode, mask := (s[0] >> 7) & 1, s[0] & 0x0F, (s[1] >> 7) & 1;
    if s[1] & 0x7F == 126 {
      assert (s + t)[2..4] == s[2..4];
      RestExtends(s, t, Frame(fin, opcode, mask, 16, BigEndian(s[2..4]), NO_KEY, 4));
    } else if s[1] & 0x7F == 127 {
      assert (s + t)[2..10] == s[2..10];
      RestExtends(s, t, Frame(fin, opcode, mask, 64, BigEndian(s[2..10]), NO_KEY, 10));
    } else {
      RestExtends(s, t, Frame(fin, opcode, mask, 7, (s[1] & 0x7F) as nat, NO_KEY, 2));
    }
  }

  /** Of a whole frame, exactly the prefixes of full size parse; shorter ones of two bytes or more ask for more. */
  lemma PrefixNeedsMore(s: seq<byte>, n: nat)
    requires ParseFrame(s).Parsed? && ParseFrame(s).frame.Size() <= |s| < TWO_64
    requires 2 <= n <= |s|
    ensures ParseFrame(s[..n]) == if n < ParseFrame(s).frame.Size() then NeedMore else ParseFrame(s)
  {
    hide ParseFrame;
    TooShortIff(s[..n]);
    if n < ParseFrame(s).frame.Size() {
      if ParseFrame(s[..n]).Parsed? {
        ParseExtends(s[..n], s[n..]);
        assert s[..n] + s[n..] == s;
        ParsedShape(s[..n]);
      }
    } else {
      WholePrefixParses(s, n);
    }
  }

  lemma TooShortIff(s: seq<byte>)
    ensures ParseFrame(s) == TooShort <==> |s| < 2
  {}

  lemma RestOfPrefix(s: seq<byte>, n: nat, f: Frame)
    requires f.headerSize <= n <= |s| && ParseRest(s, f).Parsed?
    requires ParseRest(s, f).frame.Size() <= n
    ensures ParseRest(s[..n], f) == ParseRest(s, f)
  {
    if f.mask != 0 { assert s[..n][f.headerSize..f.headerSize + 4] == s[f.headerSize..f.headerSize + 4]; }
  }

  lemma WholePrefixParses(s: seq<byte>, n: nat)
    requires ParseFrame(s).Parsed? && ParseFrame(s).frame.Size() <= n <= |s|
    ensures ParseFrame(s[..n]) == ParseFrame(s)
  {
    ParsedShape(s);
    var fin, opcode, mask := (s[0] >> 7) & 1, s[0] & 0x0F, (s[1] >> 7) & 1;
    if s[1] & 0x7F == 126 {
      assert s[..n][2..4] == s[2..4];
      RestOfPrefix(s, n, Frame(fin, opcode, mask, 16, BigEndian(s[2..4]), NO_KEY, 4));
    } else if s[1] & 0x7F == 127 {
      assert s[..n][2..10] == s[2..10];
      RestOfPrefix(s, n, Frame(fin, opcode, mask, 64, BigEndian(s[2..10]), NO_KEY, 10));
    } else {
      RestOfPrefix(s, n, Frame(fin, opcode, mask, 7, (s[1] & 0x7F) as nat, NO_KEY, 2));
    }
  }

  // ---- The encoder --------------------------------------------------------------------------------

  function LenType(len: nat): nat { if len < 126 then 7 else if len < 65536 then 16 else 64 }

  function LenSize(len: nat): nat { if len < 126 then 2 else if len < 65536 then 4 else 10 }

  /** The header both senders build, up to the masking key: `maskBit` is 0 or 0x80. */
  function Header(opcode: byte, maskBit: byte, len: nat): (h: seq<byte>)
    requires len < TWO_64
    ensures |h| == LenSize(len)
  {
    if len < 126 then [0x80 | opcode, maskBit | ToByte(len)]
    else if len < 65536 then [0x80 | opcode, maskBit | 126] + ToBigEndian(len, 2)
    else [0x80 | opcode, maskBit | 127] + ToBigEndian(len, 8)
  }

  /** XOR with the rotating four-byte key. */
  function Masked(d: seq<byte>, key: seq<byte>): (r: seq<byte>)
    requires |key| == 4
    ensures |r| == |d|
  {
    seq(|d|, i requires 0 <= i < |d| => d[i] ^ key[i % 4])
  }

  lemma UnmaskMasked(d: seq<byte>, key: seq<byte>)
    requires |key| == 4
    ensures Masked(Masked(d, key), key) == d
  {
    forall i | 0 <= i < |d| ensures Masked(Masked(d, key), key)[i] == d[i] {
      XorTwice(d[i], key[i % 4]);
    }
  }

  lemma XorTwice(a: byte, b: byte)
    ensures (a ^ b) ^ b == a
  {}

  /** The rule of section 5.3 of RFC 6455: octet i meets octet i modulo 4 of the key. */
  lemma MaskedAt(d: seq<byte>, key: seq<byte>, i: nat)
    requires |key| == 4 && i < |d|
    ensures Masked(d, key)[i] ^ d[i] == key[i % 4]
  {
    XorBack(d[i], key[i % 4]);
  }

  lemma XorBack(a: byte, b: byte)
    ensures (a ^ b) ^ a == b
  {}

  /** The masked text of section 5.7 of RFC 6455. */
  lemma MaskedHello()
    ensures Masked([0x48, 0x65, 0x6C, 0x6C, 0x6F], [0x37, 0xFA, 0x21, 0x3D]) == [0x7F, 0x9F, 0x4D, 0x51, 0x58]
  {}

  /** A message sent by websocket_send: final, unmasked. */
  function EncodeMessage(isText: bool, data: seq<byte>): seq<byte>
    requires |data| < TWO_64
  {
    Header(if isText then OPCODE_TEXT else OPCODE_BINARY, 0, |data|) + data
  }

  /** The heartbeat ping. */
  const PING_FRAME: seq<byte> := [0x89, 0x00]

  /** The bit fields of the first two header bytes. */
  lemma FieldsOfByte0(opcode: byte)
    requires opcode <= 0x0F
    ensures ((0x80 | opcode) >> 7) & 1 == 1 && (0x80 | opcode) & 0x0F == opcode
  {}

  lemma FieldsOfByte1(maskBit: byte, len7: byte)
    requires maskBit == 0 || maskBit == 0x80
    requires len7 <= 127
    ensures (maskBit | len7) & 0x7F == len7
    ensures ((maskBit | len7) >> 7) & 1 == if maskBit == 0 then 0 else 1
  {}

  /** The parser on an encoded header: every field comes back. */
  lemma HeaderParses(opcode: byte, maskBit: byte, len: nat, t: seq<byte>)
    requires opcode <= 0x0F && (maskBit == 0 || maskBit == 0x80) && len < TWO_64
    ensures var h := Header(opcode, maskBit, len);
      ParseFrame(h + t) == ParseRest(h + t,
        Frame(1, opcode, if maskBit == 0 then 0 else 1, LenType(len), len, NO_KEY, |h|))
  {
    hide ParseRest, CheckWhole, BigEndian, ToBigEndian;
    var h := Header(opcode, maskBit, len);
    var s := h + t;
    FieldsOfByte0(opcode);
    if len < 126 {
      SmallByte(ToByte(len));
      FieldsOfByte1(maskBit, ToByte(len));
    } else {
      WidthBounds();
      var k, code: byte := if len < 65536 then 2 else 8, if len < 65536 then 126 else 127;
      FieldsOfByte1(maskBit, code);
      assert s[2..2 + k] == ToBigEndian(len, k);
      BigEndianRoundTrip(len, k);
    }
  }

  lemma LenSizeBound(len: nat)
    ensures 2 <= LenSize(len) <= 10
  {}

  /** Round trip of a message, at the head of any stream. */
  lemma MessageRoundTrip(isText: bool, data: seq<byte>, t: seq<byte>)
    requires |data| + 14 < TWO_64
    ensures var s := EncodeMessage(isText, data);
      && ParseFrame(s + t) == Parsed(Frame(1, if isText then OPCODE_TEXT else OPCODE_BINARY, 0,
                                           LenType(|data|), |data|, NO_KEY, LenSize(|data|)))
      && |s| == LenSize(|data|) + |data|
      && (s + t)[LenSize(|data|)..|s|] == data
  {
    hide ParseFrame, Header, LenType, LenSize;
    var opcode := if isText then OPCODE_TEXT else OPCODE_BINARY;
    LenSizeBound(|data|);
    var s, h := EncodeMessage(isText, data), Header(opcode, 0, |data|);
    assert s + t == h + (data + t);
    HeaderParses(opcode, 0, |data|, data + t);
  }

  /** A final masked frame of any opcode, as a masking peer would build it. */
  function EncodeMasked(opcode: byte, payload: seq<byte>, key: seq<byte>): seq<byte>
    requires |payload| < TWO_64 && |key| == 4
  {
    Header(opcode, 0x80, |payload|) + key + Masked(payload, key)
  }

  /** Round trip of a masked frame: the parser finds the key, and unmasking with it returns the payload. */
  lemma MaskedRoundTrip(opcode: byte, payload: seq<byte>, key: seq<byte>, t: seq<byte>)
    requires opcode <= 0x0F && |payload| + 14 < TWO_64 && |key| == 4
    ensures var s, h := EncodeMasked(opcode, payload, key), LenSize(|payload|) + 4;
      && ParseFrame(s + t) == Parsed(Frame(1, opcode, 1, LenType(|payload|), |payload|, key, h))
      && |s| == h + |payload|
      && (s + t)[h..|s|] == Masked(payload, key)
      && Masked((s + t)[h..|s|], key) == payload
  {
    hide ParseFrame, Header, LenType, LenSize, Masked;
    LenSizeBound(|payload|);
    var s, h := EncodeMasked(opcode, payload, key), Header(opcode, 0x80, |payload|);
    assert s + t == h + (key + Masked(payload, key) + t);
    HeaderParses(opcode, 0x80, |payload|, key + Masked(payload, key) + t);
    assert (s + t)[|h|..|h| + 4] == key;
    assert (s + t)[|h| + 4..|s|] == Masked(payload, key);
    UnmaskMasked(payload, key);
  }

  lemma PingRoundTrip(t: seq<byte>)
    ensures ParseFrame(PING_FRAME + t) == Parsed(Frame(1, OPCODE_PING, 0, 7, 0, NO_KEY, 2))
  {
    HeaderParses(OPCODE_PING, 0, 0, t);
    assert Header(OPCODE_PING, 0, 0) == PING_FRAME;
  }

  /** No header that any peer could send for the same length and mask bit is shorter than ours. */
  lemma ShortestForm(s: seq<byte>)
    requires ParseFrame(s).Parsed?
    ensures var f := ParseFrame(s).frame;
      && f.headerSize >= LenSize(f.payloadLen) + (if f.mask != 0 then 4 else 0)
  {
    WidthBounds();
    if |s| >= 4 { BigEndianBound(s[2..4]); }
  }
}
