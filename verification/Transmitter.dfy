/**
 The transmit path as it runs (src/websocket.c:807-939, 1573-1587, src/io_kqueue.c:316-361): headers are
 built and written to the transmit ring, payloads follow, and the socket takes a part of the queue.
 */
module Transmitters {
  import opened Bytes
  import opened RingBuffers
  import opened Frames
  import opened Receive
  import opened Transmit

  /** The masking loop of the pong sender. */
  method MaskPayload(payload: seq<byte>, key: seq<byte>) returns (masked: seq<byte>)
    requires |key| == 4
    ensures masked == Masked(payload, key)
  {
    masked := [];
    for i := 0 to |payload|
      invariant masked == Masked(payload, key)[..i]
    {
      masked := masked + [payload[i] ^ key[i % 4]];
    }
  }

  /** The one or two segments of a gathering write: together they are the queue. */
  lemma SegmentsAreQueue(s: seq<byte>, rp: nat, n: nat)
    requires rp < |s| && n <= |s|
    ensures rp + n > |s| ==> Concat([s[rp..], s[..n - (|s| - rp)]]) == Window(s, rp, n)
    ensures rp + n <= |s| ==> Concat([s[rp..rp + n]]) == Window(s, rp, n)
  {
    if rp + n > |s| {
      var a, b := s[rp..], s[..n - (|s| - rp)];
      assert [a, b][1..] == [b] && [b][1..] == [];
      assert Concat([b]) == b + Concat([]);
    } else {
      assert [s[rp..rp + n]][1..] == [];
    }
  }

  class Transmitter {
    const tx: RingBuffer
    var messagesSent: nat
    var bytesSent: nat
    /** The bytes the socket has taken. */
    var wire: seq<byte>

    ghost predicate Valid()
      reads this, tx
    {
      tx.Valid()
    }

    ghost function Capacity(): nat
      requires Valid()
      reads this, tx
    {
      tx.buf.Length - 1
    }

    ghost function View(): (l: Link)
      requires Valid()
      reads this, tx, tx.buf
      ensures |l.queue| <= Capacity()
    {
      Link(tx.Contents(), wire)
    }

    constructor (ring: RingBuffer)
      requires ring.Valid() && ring.Contents() == []
      ensures Valid() && tx == ring && View() == IDLE
    {
      tx, wire := ring, [];
      messagesSent, bytesSent := 0, 0;
    }

    /** A gathering write of which the socket takes at most `accept` bytes. */
    method IoWrite(accept: nat) returns (n: nat)
      requires Valid()
      modifies this`wire, tx`readPtr
      ensures Valid() && View() == Flush(old(View()), accept)
      ensures n == Min(accept, old(|tx.Contents()|))
      ensures wire == old(wire) + old(tx.Contents())[..n] && tx.Contents() == old(tx.Contents())[n..]
    {
      var rp: nat, size: nat := tx.readPtr, tx.buf.Length;
      var available := ReadView(size, rp, tx.writePtr).1;
      if available == 0 {
        return 0;
      }
      var segments := [tx.buf[rp..if rp + available <= size then rp + available else size]];
      if rp + available > size {
        segments := [tx.buf[rp..size], tx.buf[..available - (size - rp)]];
      }
      SegmentsAreQueue(tx.buf[..], rp, available);
      assert rp + available <= size ==> tx.buf[rp..rp + available] == tx.buf[..][rp..rp + available];
      assert Concat(segments) == tx.Contents();
      n := Min(accept, available);
      if n > 0 {
        wire := wire + Concat(segments)[..n];
        tx.AdvanceRead(n);
      }
    }

    /** Queues the parts of a frame one after the other, stopping at the first that does not fit. */
    method Enqueue(header: seq<byte>, payload: seq<byte>) returns (whole: bool)
      requires Valid()
      modifies tx`writePtr, tx.buf
      ensures Valid()
      ensures tx.Contents() == Push(old(tx.Contents()), Capacity(), header + payload)
      ensures whole <==> |header| + |payload| <= Capacity() - old(|tx.Contents()|)
    {
      PushTwice(tx.Contents(), Capacity(), header, payload);
      var written := tx.Write(header);
      if written != |header| {
        return false;
      }
      if |payload| > 0 {
        written := tx.Write(payload);
        return written == |payload|;
      }
      return true;
    }

    /** websocket_send: 0 exactly if the connection is open, there is data and the whole frame fits. */
    method SendMessage(state: WsState, data: seq<byte>, isText: bool, accept: nat) returns (r: int)
      requires Valid() && |data| + 14 < TWO_64
      modifies this`wire, this`messagesSent, this`bytesSent, tx, tx.buf
      ensures Valid()
      ensures var o := if isText then Text(data) else Binary(data);
        if state != Connected || data == [] then
          r == -1 && View() == old(View()) && messagesSent == old(messagesSent) && bytesSent == old(bytesSent)
        else
          && View() == Send(old(View()), Capacity(), o, accept)
          && r == (if Succeeds(old(View()), Capacity(), o) then 0 else -1)
          && messagesSent == old(messagesSent) + (if r == 0 then 1 else 0)
          && bytesSent == old(bytesSent) + (if r == 0 then |data| else 0)
    {
      if |data| == 0 || state != Connected {
        return -1;
      }
      var header := Header(if isText then OPCODE_TEXT else OPCODE_BINARY, 0, |data|);
      var whole := Enqueue(header, data);
      if !whole {
        return -1;
      }
      messagesSent := messagesSent + 1;
      bytesSent := bytesSent + |data|;
      var n := IoWrite(accept);
      return 0;
    }

    /** websocket_send_pong: the payload of the ping, masked with a fresh key. */
    method SendPong(state: WsState, payload: seq<byte>, key: seq<byte>, accept: nat) returns (r: int)
      requires Valid() && |payload| + 14 < TWO_64 && |key| == 4
      modifies this`wire, tx, tx.buf
      ensures Valid()
      ensures var o := Pong(payload, key);
        if state != Connected then r == -1 && View() == old(View())
        else
          && View() == Send(old(View()), Capacity(), o, accept)
          && r == (if Succeeds(old(View()), Capacity(), o) then 0 else -1)
    {
      if state != Connected {
        return -1;
      }
      var header := Header(OPCODE_PONG, 0x80, |payload|) + key;
      var masked := MaskPayload(payload, key);
      var whole := Enqueue(header, masked);
      if !whole {
        return -1;
      }
      var n := IoWrite(accept);
      return 0;
    }

    /** The ping of the heartbeat: two bytes, flushed if both were queued. */
    method SendPing(accept: nat) returns (written: bool)
      requires Valid()
      modifies this`wire, tx, tx.buf
      ensures Valid() && View() == Send(old(View()), Capacity(), Ping, accept)
      ensures written <==> Succeeds(old(View()), Capacity(), Ping)
    {
      written := Enqueue(PING_FRAME, []);
      assert PING_FRAME + [] == PING_FRAME;
      if written {
        var n := IoWrite(accept);
      }
    }
  }
}
