/** The client's receive thread: its ring buffer, its packet queue and its loops. */
module Client {
  import opened Common
  import opened Framing

  /** `recv` is given `sizeof(recvBuffer)`, which is the size of a pointer. */
  const RECV_LIMIT: nat := 8

  /** What `recv` returns. */
  datatype Received = Data(chunk: seq<Byte>) | ConnectionClosed | RecvError

  class SimpleClient {
    const format: Format
    const capacity: nat
    var ring: seq<Byte>
    var recvBufferQueue: seq<Payload>
    var needStop: bool
    var socketClosed: bool

    constructor (format: Format, capacity: nat)
      ensures this.format == format && this.capacity == capacity
      ensures ring == [] && recvBufferQueue == [] && !needStop && !socketClosed
    {
      this.format, this.capacity := format, capacity;
      ring, recvBufferQueue, needStop, socketClosed := [], [], false, false;
    }

    /** `CRingbuffer::Dequeue`: removes up to `size` bytes. */
    method Dequeue(size: nat) returns (bytes: seq<Byte>)
      modifies this`ring
      ensures bytes + ring == old(ring)
      ensures |bytes| == if size <= |old(ring)| then size else |old(ring)|
    {
      var n := if size <= |ring| then size else |ring|;
      bytes, ring := ring[..n], ring[n..];
    }

    /** Takes a whole frame off the ring and decodes it. */
    method TakePacket(payloadLength: nat) returns (packet: Option<Payload>, dequeuedSize: nat)
      requires WellFormed(format) && |ring| >= format.header + payloadLength && Declared(format, ring) == payloadLength
      modifies this`ring
      ensures dequeuedSize == payloadLength && ring == old(ring)[format.header + payloadLength..]
      ensures packet == format.decode(old(ring)[..format.header],
                                      old(ring)[format.header..format.header + payloadLength])
    {
      ghost var start := ring;
      var header := Dequeue(format.header);
      var payload := Dequeue(payloadLength);
      FrameTaken(format, start, header, payload, ring);
      packet, dequeuedSize := format.decode(header, payload), |payload|;
    }

    method MakePacketsFromRingBuffer() returns (ok: bool)
      requires WellFormed(format)
      modifies this`ring, this`recvBufferQueue
      ensures var d := Drain(format, old(ring));
        ring == d.rest && recvBufferQueue == old(recvBufferQueue) + d.packets && ok == d.ok
    {
      var restSize := |ring|;
      ghost var pushed := [];
      while restSize > format.header
        invariant restSize == |ring|
        invariant recvBufferQueue == old(recvBufferQueue) + pushed
        invariant var d := Drain(format, ring);
          Drain(format, old(ring)) == d.(packets := pushed + d.packets)
        decreases restSize
      {
        var payloadLength := Declared(format, ring[..format.header]);
        if restSize < payloadLength + format.header {
          if payloadLength > format.maxPayload {
            return false;
          }
          break;
        }
        var packet, dequeuedSize := TakePacket(payloadLength);
        if packet.None? {
          return false;
        }
        restSize := restSize - (dequeuedSize + format.header);
        recvBufferQueue := recvBufferQueue + [packet.value];
        ghost var d := Drain(format, ring);
        assert pushed + ([packet.value] + d.packets) == pushed + [packet.value] + d.packets;
        pushed := pushed + [packet.value];
      }
      return true;
    }

    /** One turn of the receive thread. */
    method DoRecv(received: Received)
      requires WellFormed(format)
      requires received.Data? ==> 0 < |received.chunk| <= RECV_LIMIT
      modifies this
      ensures !received.Data? ==>
        needStop && socketClosed && ring == old(ring) && recvBufferQueue == old(recvBufferQueue)
      ensures received.Data? && capacity - |old(ring)| < |received.chunk| ==>
        needStop && socketClosed == old(socketClosed) && ring == old(ring) && recvBufferQueue == old(recvBufferQueue)
      ensures received.Data? && capacity - |old(ring)| >= |received.chunk| ==>
        var d := Drain(format, old(ring) + received.chunk);
        && ring == d.rest && recvBufferQueue == old(recvBufferQueue) + d.packets
        && needStop == (old(needStop) || !d.ok) && socketClosed == (old(socketClosed) || !d.ok)
    {
      if received.Data? {
        if capacity - |ring| < |received.chunk| {
          needStop := true;
          return;
        }
        ring := ring + received.chunk;
        var ok := MakePacketsFromRingBuffer();
        if ok {
          return;
        }
      }
      socketClosed := true;
      needStop := true;
    }

    /** The receive thread, for as long as `recv` delivers the given chunks. The ring is large enough
        for one frame of default size and one chunk, so it is never found full: what is queued is
        what the received bytes yield, and the thread goes on until they fail to parse. */
    method RunRecvThread(chunks: seq<seq<Byte>>)
      requires WellFormed(format) && capacity >= format.header + format.maxPayload - 1 + 8
      requires ring == [] && recvBufferQueue == [] && !needStop && !socketClosed
      requires forall i :: 0 <= i < |chunks| ==> 0 < |chunks[i]| <= 8
      modifies this
      ensures var d := ReceiveAll(format, chunks);
        && recvBufferQueue == d.packets && needStop == !d.ok && socketClosed == !d.ok
        && (d.ok ==> ring == d.rest)
    {
      var i := 0;
      while !needStop && i < |chunks|
        invariant i <= |chunks|
        invariant needStop == socketClosed == !ReceiveAll(format, chunks[..i]).ok
        invariant recvBufferQueue == ReceiveAll(format, chunks[..i]).packets
        invariant ReceiveAll(format, chunks[..i]).ok ==> ring == ReceiveAll(format, chunks[..i]).rest
      {
        RingNeverFull(format, chunks[..i]);
        assert chunks[..i + 1][..i] == chunks[..i];
        DoRecv(Data(chunks[i]));
        i := i + 1;
      }
      FailureStays(format, chunks, i);
    }
  }

  /** Taking header and payload off the ring takes the frame the parser sees. */
  lemma FrameTaken(f: Format, bytes: seq<Byte>, header: seq<Byte>, payload: seq<Byte>, rest: seq<Byte>)
    requires WellFormed(f) && |header| == f.header && header + (payload + rest) == bytes
    requires |payload| == Declared(f, header)
    ensures Declared(f, bytes) == |payload|
    ensures header == bytes[..f.header]
    ensures payload == bytes[f.header..f.header + |payload|]
    ensures rest == bytes[f.header + |payload|..]
  {
  }

  lemma {:induction false} FailureStays(f: Format, chunks: seq<seq<Byte>>, i: nat)
    requires WellFormed(f) && i <= |chunks| && (i < |chunks| ==> !ReceiveAll(f, chunks[..i]).ok)
    ensures ReceiveAll(f, chunks) == ReceiveAll(f, chunks[..i])
  {
    if i == |chunks| {
      assert chunks[..i] == chunks;
    } else {
      assert chunks[..|chunks| - 1][..i] == chunks[..i];
      FailureStays(f, chunks[..|chunks| - 1], i);
    }
  }
}
