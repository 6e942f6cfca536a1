/** Cutting a byte stream into packets: the client's loop as a function on the ring content,
    and exactly when the way the stream was cut into receives does not matter. */
module Framing {
  import opened Common

  type Payload = seq<Byte>

  /** What the buffer library fixes: the header size, the default payload limit, and the
      decoder, which sees header and payload. */
  datatype Format = Format(header: nat, maxPayload: nat, decode: (seq<Byte>, seq<Byte>) -> Option<Payload>)

  ghost predicate WellFormed(f: Format) {
    f.header >= 3 && f.maxPayload >= 1
  }

  /** The little-endian length in bytes 1 and 2 of the header. */
  function Declared(f: Format, bytes: seq<Byte>): nat
    requires |bytes| >= f.header >= 3
  {
    bytes[1] as nat + 256 * bytes[2] as nat
  }

  /** The packets pushed, the bytes left in the ring, and the result of the loop. */
  datatype Drained = Drained(packets: seq<Payload>, rest: seq<Byte>, ok: bool)

  function Push(packet: Payload, d: Drained): Drained {
    d.(packets := [packet] + d.packets)
  }

  /** `MakePacketsFromRingBuffer` on the bytes in the ring. */
  function Drain(f: Format, bytes: seq<Byte>): Drained
    requires WellFormed(f)
    decreases |bytes|
  {
    if |bytes| <= f.header then Drained([], bytes, true)
    else
      var n := Declared(f, bytes);
      if |bytes| < n + f.header then Drained([], bytes, n <= f.maxPayload)
      else
        var rest := bytes[f.header + n..];
        match f.decode(bytes[..f.header], bytes[f.header..f.header + n])
        case None => Drained([], rest, false)
        case Some(packet) => Push(packet, Drain(f, rest))
  }

  /** Receiving one chunk: the ring is extended and drained. A failure ends the connection. */
  function Receive(f: Format, d: Drained, chunk: seq<Byte>): Drained
    requires WellFormed(f)
  {
    if !d.ok then d
    else
      var more := Drain(f, d.rest + chunk);
      Drained(d.packets + more.packets, more.rest, more.ok)
  }

  /** A connection that receives the chunks one after the other. */
  function ReceiveAll(f: Format, chunks: seq<seq<Byte>>): Drained
    requires WellFormed(f)
  {
    if chunks == [] then Drained([], [], true)
    else Receive(f, ReceiveAll(f, chunks[..|chunks| - 1]), chunks[|chunks| - 1])
  }

  /** Same packets, same result, and, unless it failed, the same bytes left over. */
  ghost predicate Same(a: Drained, b: Drained) {
    a.packets == b.packets && a.ok == b.ok && (a.ok ==> a.rest == b.rest)
  }

  /** No frame on the parse path declares more than the default size and is nevertheless complete
      and decodable. */
  ghost predicate NoOversizePacket(f: Format, bytes: seq<Byte>)
    requires WellFormed(f)
    decreases |bytes|
  {
    if |bytes| <= f.header then true
    else
      var n := Declared(f, bytes);
      if |bytes| < n + f.header || f.decode(bytes[..f.header], bytes[f.header..f.header + n]).None? then true
      else n <= f.maxPayload && NoOversizePacket(f, bytes[f.header + n..])
  }

  // ---- More bytes at the end ----

  /** A complete frame parses the same with more bytes behind it. */
  lemma SameFrame(f: Format, x: seq<Byte>, y: seq<Byte>)
    requires WellFormed(f) && |x| >= f.header && |x| >= Declared(f, x) + f.header
    ensures Declared(f, x + y) == Declared(f, x)
    ensures var n := Declared(f, x);
      && (x + y)[..f.header] == x[..f.header]
      && (x + y)[f.header..f.header + n] == x[f.header..f.header + n]
      && (x + y)[f.header + n..] == x[f.header + n..] + y
  {
  }

  /** Draining in two goes gives what draining at once gives. */
  lemma {:induction false} DrainAppend(f: Format, x: seq<Byte>, y: seq<Byte>)
    requires WellFormed(f) && NoOversizePacket(f, x + y)
    ensures Same(Receive(f, Drain(f, x), y), Drain(f, x + y))
    decreases |x|
  {
    if |x| <= f.header {
      assert Receive(f, Drain(f, x), y).packets == Drain(f, x + y).packets;
    } else {
      var n := Declared(f, x);
      if |x| < n + f.header {
        assert Declared(f, x + y) == n;
        StuckAppend(f, x, y);
      } else {
        SameFrame(f, x, y);
        var packet := f.decode(x[..f.header], x[f.header..f.header + n]);
        if packet.Some? {
          var rest := x[f.header + n..];
          DrainAppend(f, rest, y);
          PushReceive(f, packet.value, Drain(f, rest), y, Drain(f, rest + y));
        }
      }
    }
  }

  lemma PushReceive(f: Format, packet: Payload, d: Drained, y: seq<Byte>, e: Drained)
    requires WellFormed(f) && Same(Receive(f, d, y), e)
    ensures Same(Receive(f, Push(packet, d), y), Push(packet, e))
  {
    if d.ok {
      var more := Drain(f, d.rest + y).packets;
      assert [packet] + d.packets + more == [packet] + (d.packets + more);
    }
  }

  /** A partial frame waits if its declared length is admissible and fails the connection if not. */
  lemma StuckAppend(f: Format, x: seq<Byte>, y: seq<Byte>)
    requires WellFormed(f) && NoOversizePacket(f, x + y)
    requires |x| > f.header && |x| < Declared(f, x) + f.header && Declared(f, x + y) == Declared(f, x)
    ensures Same(Receive(f, Drain(f, x), y), Drain(f, x + y))
  {
    if Declared(f, x) <= f.maxPayload {
      assert Receive(f, Drain(f, x), y).packets == Drain(f, x + y).packets;
    }
  }

  lemma {:induction false} NoOversizePrefix(f: Format, x: seq<Byte>, y: seq<Byte>)
    requires WellFormed(f) && NoOversizePacket(f, x + y)
    ensures NoOversizePacket(f, x)
    decreases |x|
  {
    if |x| > f.header && |x| >= Declared(f, x) + f.header {
      SameFrame(f, x, y);
      var n := Declared(f, x);
      if f.decode(x[..f.header], x[f.header..f.header + n]).Some? {
        NoOversizePrefix(f, x[f.header + n..], y);
      }
    }
  }

  // ---- Chunking ----

  lemma ReceiveSame(f: Format, a: Drained, b: Drained, chunk: seq<Byte>)
    requires WellFormed(f) && Same(a, b)
    ensures Same(Receive(f, a, chunk), Receive(f, b, chunk))
  {
  }

  lemma {:induction false} ChunksDontMatter(f: Format, chunks: seq<seq<Byte>>)
    requires WellFormed(f) && NoOversizePacket(f, Flatten(chunks))
    ensures Same(ReceiveAll(f, chunks), Drain(f, Flatten(chunks)))
  {
    if chunks != [] {
      var init, last := chunks[..|chunks| - 1], chunks[|chunks| - 1];
      NoOversizePrefix(f, Flatten(init), last);
      ChunksDontMatter(f, init);
      ReceiveSame(f, ReceiveAll(f, init), Drain(f, Flatten(init)), last);
      DrainAppend(f, Flatten(init), last);
    }
  }

  /** A cut inside an oversize packet loses it: the connection fails where the whole stream goes on. */
  lemma {:induction false} CutLosesPacket(f: Format, bytes: seq<Byte>) returns (cut: nat)
    requires WellFormed(f) && !NoOversizePacket(f, bytes)
    ensures cut <= |bytes| && !Drain(f, bytes[..cut]).ok
    ensures |Drain(f, bytes[..cut]).packets| < |Drain(f, bytes).packets|
    decreases |bytes|
  {
    var n := Declared(f, bytes);
    if n > f.maxPayload {
      cut := f.header + 1;
      assert Declared(f, bytes[..cut]) == n;
    } else {
      var rest := bytes[f.header + n..];
      var inner := CutLosesPacket(f, rest);
      cut := f.header + n + inner;
      FirstFrameOf(f, bytes, cut);
    }
  }

  /** A cut behind the first frame leaves that frame as it is. */
  lemma FirstFrameOf(f: Format, bytes: seq<Byte>, cut: nat)
    requires WellFormed(f) && |bytes| > f.header && f.header + Declared(f, bytes) <= cut <= |bytes|
    ensures var n, part := Declared(f, bytes), bytes[..cut];
      && |part| >= f.header && Declared(f, part) == n
      && part[..f.header] == bytes[..f.header]
      && part[f.header..f.header + n] == bytes[f.header..f.header + n]
      && part[f.header + n..] == bytes[f.header + n..][..cut - (f.header + n)]
  {
  }

  lemma TwoChunks(f: Format, x: seq<Byte>, y: seq<Byte>)
    requires WellFormed(f) && !Drain(f, x).ok
    ensures Flatten([x, y]) == x + y
    ensures ReceiveAll(f, [x, y]) == Drain(f, x)
  {
    assert [x, y][..1] == [x] && [x][..0] == [];
    assert Flatten([x]) == [] + x;
    assert ReceiveAll(f, [x]) == Receive(f, ReceiveAll(f, []), x);
    assert [] + x == x && [] + Drain(f, x).packets == Drain(f, x).packets;
  }

  lemma OversizeDiffers(f: Format, stream: seq<Byte>) returns (chunks: seq<seq<Byte>>)
    requires WellFormed(f) && !NoOversizePacket(f, stream)
    ensures Flatten(chunks) == stream && ReceiveAll(f, chunks).packets != Drain(f, stream).packets
  {
    var cut := CutLosesPacket(f, stream);
    var x, y := stream[..cut], stream[cut..];
    assert x + y == stream;
    TwoChunks(f, x, y);
    chunks := [x, y];
  }

  /** The packets, the result and the leftover bytes are the same for every way of cutting a stream
      into chunks if and only if no frame on its parse path declares more than the default size
      and is nevertheless complete and decodable. */
  lemma ChunkingExactly(f: Format, stream: seq<Byte>)
    requires WellFormed(f)
    ensures (forall chunks :: Flatten(chunks) == stream ==> Same(ReceiveAll(f, chunks), Drain(f, stream)))
       <==> NoOversizePacket(f, stream)
  {
    if NoOversizePacket(f, stream) {
      forall chunks | Flatten(chunks) == stream
        ensures Same(ReceiveAll(f, chunks), Drain(f, stream))
      {
        ChunksDontMatter(f, chunks);
      }
    } else {
      var chunks := OversizeDiffers(f, stream);
      assert Flatten(chunks) == stream;
    }
  }

  // ---- Occupancy ----

  /** What a successful drain leaves is a suffix of the ring, shorter than the largest admissible frame. */
  lemma {:induction false} LeftoverBound(f: Format, bytes: seq<Byte>)
    requires WellFormed(f)
    ensures Drain(f, bytes).ok ==> |Drain(f, bytes).rest| < f.header + f.maxPayload
    ensures |Drain(f, bytes).rest| <= |bytes| && Drain(f, bytes).rest == bytes[|bytes| - |Drain(f, bytes).rest|..]
    decreases |bytes|
  {
    if |bytes| > f.header && |bytes| >= Declared(f, bytes) + f.header {
      LeftoverBound(f, bytes[f.header + Declared(f, bytes)..]);
    }
  }

  lemma {:induction false} RingNeverFull(f: Format, chunks: seq<seq<Byte>>)
    requires WellFormed(f)
    ensures ReceiveAll(f, chunks).ok ==> |ReceiveAll(f, chunks).rest| < f.header + f.maxPayload
  {
    if chunks != [] {
      var d := ReceiveAll(f, chunks[..|chunks| - 1]);
      LeftoverBound(f, d.rest + chunks[|chunks| - 1]);
    }
  }

  // ---- The first frame ----

  /** What a parse meets first: too little to look at, a partial frame, or a whole frame, decoded or not,
      and the bytes after it. */
  datatype Head = Waiting | Partial(n: nat) | Whole(n: nat, packet: Option<Payload>, rest: seq<Byte>)

  function HeadOf(f: Format, bytes: seq<Byte>): (h: Head)
    requires WellFormed(f)
    ensures h.Whole? ==> |h.rest| + f.header + h.n == |bytes|
  {
    if |bytes| <= f.header then Waiting
    else
      var n := Declared(f, bytes);
      if |bytes| < n + f.header then Partial(n)
      else Whole(n, f.decode(bytes[..f.header], bytes[f.header..f.header + n]), bytes[f.header + n..])
  }

  lemma HeadAppend(f: Format, x: seq<Byte>, y: seq<Byte>)
    requires WellFormed(f)
    ensures HeadOf(f, x).Whole? ==> HeadOf(f, x + y) == HeadOf(f, x).(rest := HeadOf(f, x).rest + y)
    ensures HeadOf(f, x).Partial? ==>
      var h := HeadOf(f, x + y); !h.Waiting? && h.n == HeadOf(f, x).n && (h.Whole? ==> |h.rest| <= |y|)
  {
    if |x| > f.header {
      assert Declared(f, x + y) == Declared(f, x);
      if |x| >= Declared(f, x) + f.header {
        SameFrame(f, x, y);
      }
    }
  }

  /** The loop, by what it meets first. */
  lemma DrainHead(f: Format, bytes: seq<Byte>)
    requires WellFormed(f)
    ensures var h := HeadOf(f, bytes);
      Drain(f, bytes) == if !h.Whole? then Drained([], bytes, h.Waiting? || h.n <= f.maxPayload)
                         else if h.packet.None? then Drained([], h.rest, false)
                         else Push(h.packet.value, Drain(f, h.rest))
  {
  }
}
