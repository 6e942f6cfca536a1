/** The server's drain loop, and how it compares with the client's. */
module ServerFraming {
  import opened Common
  import opened Framing

  type Message = nat

  /** `CreateMessageFromPacket`: none for a payload without a packet id or with an unknown one. */
  type Interpreter = Payload -> Option<Message>

  /** The messages enqueued, the bytes left in the ring, and the result of the loop. */
  datatype Served = Served(messages: seq<Message>, rest: seq<Byte>, ok: bool)

  function Enqueue(m: Message, s: Served): Served {
    s.(messages := [m] + s.messages)
  }

  /** What one pass of the loop does to a ring with more than a header in it. */
  datatype Pass = Rejected(rest: seq<Byte>) | Accepted(message: Message, rest: seq<Byte>)

  /** `RecvStreamToBuffer`, `CreateMessageFromPacket` and `SendMessage` on one frame. A partial frame
      of admissible length is not waited for: what there is of it is taken. */
  function ServePass(f: Format, interpret: Interpreter, stopped: bool, bytes: seq<Byte>): (p: Pass)
    requires WellFormed(f) && |bytes| > f.header
    ensures p.Accepted? ==> |p.rest| + f.header <= |bytes|
  {
    var n := Declared(f, bytes);
    if |bytes| < n + f.header && n > f.maxPayload then Rejected(bytes)
    else
      var k := Min(n, |bytes| - f.header);
      var rest := bytes[f.header + k..];
      match f.decode(bytes[..f.header], bytes[f.header..f.header + k])
      case None => Rejected(rest)
      case Some(payload) =>
        match interpret(payload)
        case None => Rejected(rest)
        case Some(m) => if stopped then Rejected(rest) else Accepted(m, rest)
  }

  /** The loop of `OnRecvIoCompleted` on the bytes in the ring. */
  function ServeAll(f: Format, interpret: Interpreter, stopped: bool, bytes: seq<Byte>): Served
    requires WellFormed(f)
    decreases |bytes|
  {
    if |bytes| <= f.header then Served([], bytes, true)
    else
      match ServePass(f, interpret, stopped, bytes)
      case Rejected(rest) => Served([], rest, false)
      case Accepted(m, rest) => Enqueue(m, ServeAll(f, interpret, stopped, rest))
  }

  ghost predicate AllAccepted(interpret: Interpreter, packets: seq<Payload>) {
    forall i :: 0 <= i < |packets| ==> interpret(packets[i]).Some?
  }

  function Messages(interpret: Interpreter, packets: seq<Payload>): (ms: seq<Message>)
    requires forall i :: 0 <= i < |packets| ==> interpret(packets[i]).Some?
    ensures |ms| == |packets| && forall i :: 0 <= i < |ms| ==> interpret(packets[i]) == Some(ms[i])
  {
    if packets == [] then [] else [interpret(packets[0]).value] + Messages(interpret, packets[1..])
  }

  /** One whole frame: the server's pass does what the client's does. */
  lemma WholeFrame(f: Format, interpret: Interpreter, bytes: seq<Byte>) returns (m: Message)
    requires WellFormed(f) && |bytes| > f.header && |bytes| >= Declared(f, bytes) + f.header
    requires Drain(f, bytes).ok && AllAccepted(interpret, Drain(f, bytes).packets)
    ensures var rest := bytes[f.header + Declared(f, bytes)..];
      && Drain(f, rest).ok && AllAccepted(interpret, Drain(f, rest).packets)
      && Drain(f, bytes).rest == Drain(f, rest).rest
      && Messages(interpret, Drain(f, bytes).packets) == [m] + Messages(interpret, Drain(f, rest).packets)
      && ServeAll(f, interpret, false, bytes) == Enqueue(m, ServeAll(f, interpret, false, rest))
  {
    var n := Declared(f, bytes);
    var rest := bytes[f.header + n..];
    var packet := f.decode(bytes[..f.header], bytes[f.header..f.header + n]).value;
    var all := Drain(f, bytes).packets;
    assert all[0] == packet && all[1..] == Drain(f, rest).packets;
    forall i | 0 <= i < |all| - 1
      ensures interpret(all[1..][i]).Some?
    {
      assert all[1..][i] == all[i + 1];
    }
    m := interpret(packet).value;
  }

  /** On whole frames, the last of which may lack its payload altogether, the two loops take the same
      frames in the same order and leave the same bytes. */
  lemma {:induction false} ServesWholeFrames(f: Format, interpret: Interpreter, bytes: seq<Byte>)
    requires WellFormed(f) && Drain(f, bytes).ok && AllAccepted(interpret, Drain(f, bytes).packets)
    requires |Drain(f, bytes).rest| <= f.header
    ensures ServeAll(f, interpret, false, bytes)
         == Served(Messages(interpret, Drain(f, bytes).packets), Drain(f, bytes).rest, true)
    decreases |bytes|
  {
    if |bytes| > f.header {
      var m := WholeFrame(f, interpret, bytes);
      ServesWholeFrames(f, interpret, bytes[f.header + Declared(f, bytes)..]);
    }
  }

  /** With a partial frame at the end the server takes that too and empties the ring. */
  lemma {:induction false} SwallowsPartialFrame(f: Format, interpret: Interpreter, bytes: seq<Byte>)
    requires WellFormed(f) && Drain(f, bytes).ok && AllAccepted(interpret, Drain(f, bytes).packets)
    requires |Drain(f, bytes).rest| > f.header
    ensures ServeAll(f, interpret, false, bytes).rest == []
    ensures Messages(interpret, Drain(f, bytes).packets) <= ServeAll(f, interpret, false, bytes).messages
    decreases |bytes|
  {
    if |bytes| >= Declared(f, bytes) + f.header {
      var m := WholeFrame(f, interpret, bytes);
      SwallowsPartialFrame(f, interpret, bytes[f.header + Declared(f, bytes)..]);
    } else {
      assert bytes[f.header + (|bytes| - f.header)..] == [];
    }
  }

  /** So on every ring the client can drain, the server's loop does what the client's does if and
      only if the client would leave no more than a header. */
  lemma {:induction false} ServesLikeClientExactly(f: Format, interpret: Interpreter, bytes: seq<Byte>)
    requires WellFormed(f) && Drain(f, bytes).ok && AllAccepted(interpret, Drain(f, bytes).packets)
    ensures ServeAll(f, interpret, false, bytes)
         == Served(Messages(interpret, Drain(f, bytes).packets), Drain(f, bytes).rest, true)
      <==> |Drain(f, bytes).rest| <= f.header
  {
    if |Drain(f, bytes).rest| <= f.header {
      ServesWholeFrames(f, interpret, bytes);
    } else {
      SwallowsPartialFrame(f, interpret, bytes);
    }
  }

  /** A frame as a sender writes it: header, declared length, payload. */
  ghost predicate WholeNonEmptyFrame(f: Format, frame: seq<Byte>)
    requires WellFormed(f)
  {
    |frame| > f.header && |frame| == f.header + Declared(f, frame)
    && f.decode(frame[..f.header], frame[f.header..]).Some?
  }

  function Joined(frames: seq<seq<Byte>>): seq<Byte> {
    if frames == [] then [] else frames[0] + Joined(frames[1..])
  }

  function Decoded(f: Format, frames: seq<seq<Byte>>): seq<Payload>
    requires WellFormed(f) && forall i :: 0 <= i < |frames| ==> WholeNonEmptyFrame(f, frames[i])
  {
    if frames == [] then []
    else
      assert WholeNonEmptyFrame(f, frames[0]);
      [f.decode(frames[0][..f.header], frames[0][f.header..]).value] + Decoded(f, frames[1..])
  }

  /** A ring holding whole frames with non-empty payloads is cut into exactly those frames. */
  lemma {:induction false} DrainJoined(f: Format, frames: seq<seq<Byte>>)
    requires WellFormed(f) && forall i :: 0 <= i < |frames| ==> WholeNonEmptyFrame(f, frames[i])
    ensures Drain(f, Joined(frames)) == Drained(Decoded(f, frames), [], true)
  {
    if frames != [] {
      var bytes, first := Joined(frames), frames[0];
      DrainJoined(f, frames[1..]);
      SameFrame(f, first, Joined(frames[1..]));
      assert first[f.header + Declared(f, first)..] + Joined(frames[1..]) == Joined(frames[1..]);
      assert first[f.header..f.header + Declared(f, first)] == first[f.header..];
    }
  }

  /** On such a ring server and client take the same frames in the same order and empty it. */
  lemma {:induction false} WholeFramesServed(f: Format, interpret: Interpreter, frames: seq<seq<Byte>>)
    requires WellFormed(f) && forall i :: 0 <= i < |frames| ==> WholeNonEmptyFrame(f, frames[i])
    requires AllAccepted(interpret, Decoded(f, frames))
    ensures ServeAll(f, interpret, false, Joined(frames)) == Served(Messages(interpret, Decoded(f, frames)), [], true)
    ensures Drain(f, Joined(frames)) == Drained(Decoded(f, frames), [], true)
  {
    DrainJoined(f, frames);
    ServesWholeFrames(f, interpret, Joined(frames));
  }
}
