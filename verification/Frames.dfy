/** Frames as a sender writes them, and what the two receiving loops make of them. */
module Frames {
  import opened Common
  import opened Framing
  import opened ServerFraming
  import opened ServedStream

  /** A packet to be sent: the first byte of its header, what the header holds after the length, and the payload. */
  datatype Sent = Sent(tag: Byte, other: seq<Byte>, payload: Payload)

  ghost predicate Fits(f: Format, s: Sent) {
    |s.other| + 3 == f.header && |s.payload| < 0x1_0000
  }

  /** The header: its first byte, the length of the payload with the low byte first, and the rest. */
  function HeaderOf(s: Sent): seq<Byte>
    requires |s.payload| < 0x1_0000
  {
    [s.tag, (|s.payload| % 256) as Byte, (|s.payload| / 256) as Byte] + s.other
  }

  function Frame(s: Sent): seq<Byte>
    requires |s.payload| < 0x1_0000
  {
    HeaderOf(s) + s.payload
  }

  ghost predicate AllFit(f: Format, sent: seq<Sent>) {
    forall i :: 0 <= i < |sent| ==> Fits(f, sent[i])
  }

  /** The stream of several packets. */
  function Stream(f: Format, sent: seq<Sent>): seq<Byte>
    requires AllFit(f, sent)
  {
    if sent == [] then [] else Frame(sent[0]) + Stream(f, sent[1..])
  }

  ghost predicate Decodes(f: Format, s: Sent)
    requires |s.payload| < 0x1_0000
  {
    f.decode(HeaderOf(s), s.payload).Some?
  }

  ghost predicate AllDecode(f: Format, sent: seq<Sent>)
    requires AllFit(f, sent)
  {
    forall i :: 0 <= i < |sent| ==> Decodes(f, sent[i])
  }

  /** What the decoder makes of the packets, in order. */
  ghost function Received(f: Format, sent: seq<Sent>): seq<Payload>
    requires AllFit(f, sent) && AllDecode(f, sent)
  {
    if sent == [] then [] else [f.decode(HeaderOf(sent[0]), sent[0].payload).value] + Received(f, sent[1..])
  }

  /** A frame with more bytes behind it is taken for what was sent. */
  lemma FrameHead(f: Format, s: Sent, tail: seq<Byte>)
    requires WellFormed(f) && Fits(f, s) && s.payload + tail != []
    ensures HeadOf(f, Frame(s) + tail) == Whole(|s.payload|, f.decode(HeaderOf(s), s.payload), tail)
  {
    var bytes := Frame(s) + tail;
    assert bytes[..f.header] == HeaderOf(s);
    assert Declared(f, bytes) == |s.payload|;
    assert bytes[f.header..f.header + |s.payload|] == s.payload;
    assert bytes[f.header + |s.payload|..] == tail;
  }

  /** The loop takes a frame once a byte follows its header: an empty payload at the very end of the ring waits. */
  ghost predicate Complete(sent: seq<Sent>, tail: seq<Byte>) {
    sent != [] ==> sent[|sent| - 1].payload + tail != []
  }

  /** The client's loop yields exactly the decoded payloads of the packets sent, and leaves what follows them. */
  lemma {:induction false} DrainsWhatWasSent(f: Format, sent: seq<Sent>, tail: seq<Byte>)
    requires WellFormed(f) && AllFit(f, sent) && AllDecode(f, sent) && Complete(sent, tail) && |tail| <= f.header
    ensures Drain(f, Stream(f, sent) + tail) == Drained(Received(f, sent), tail, true)
  {
    if sent == [] {
      assert Stream(f, sent) + tail == tail;
    } else {
      var later := Stream(f, sent[1..]) + tail;
      assert Stream(f, sent) + tail == Frame(sent[0]) + later;
      MoreFollows(f, sent, tail);
      FrameHead(f, sent[0], later);
      DrainHead(f, Frame(sent[0]) + later);
      DrainsWhatWasSent(f, sent[1..], tail);
    }
  }

  lemma MoreFollows(f: Format, sent: seq<Sent>, tail: seq<Byte>)
    requires AllFit(f, sent) && sent != [] && Complete(sent, tail)
    ensures sent[0].payload + (Stream(f, sent[1..]) + tail) != []
    ensures Complete(sent[1..], tail)
  {
    if |sent| > 1 {
      assert |Frame(sent[1])| >= 3;
    } else {
      assert Stream(f, sent[1..]) == [];
    }
  }

  /** A frame that does not decode ends it: what was sent before is there, and the loop fails. */
  lemma {:induction false} FailsAtBadFrame(f: Format, sent: seq<Sent>, bad: Sent, tail: seq<Byte>)
    requires WellFormed(f) && AllFit(f, sent) && AllDecode(f, sent)
    requires Fits(f, bad) && !Decodes(f, bad) && bad.payload + tail != []
    ensures var d := Drain(f, Stream(f, sent) + (Frame(bad) + tail));
      d.packets == Received(f, sent) && !d.ok && d.rest == tail
  {
    var end := Frame(bad) + tail;
    if sent == [] {
      assert Stream(f, sent) + end == end;
      FrameHead(f, bad, tail);
      DrainHead(f, end);
    } else {
      var later := Stream(f, sent[1..]) + end;
      assert Stream(f, sent) + end == Frame(sent[0]) + later;
      FrameHead(f, sent[0], later);
      DrainHead(f, Frame(sent[0]) + later);
      FailsAtBadFrame(f, sent[1..], bad, tail);
    }
  }

  /** The server's loop sends exactly the messages of those payloads, in order, and leaves what follows them. */
  lemma ServesWhatWasSent(f: Format, interpret: Interpreter, sent: seq<Sent>, tail: seq<Byte>)
    requires WellFormed(f) && AllFit(f, sent) && AllDecode(f, sent) && Complete(sent, tail) && |tail| <= f.header
    requires AllAccepted(interpret, Received(f, sent))
    ensures ServeAll(f, interpret, false, Stream(f, sent) + tail)
         == Served(Messages(interpret, Received(f, sent)), tail, true)
  {
    DrainsWhatWasSent(f, sent, tail);
    ServesWholeFrames(f, interpret, Stream(f, sent) + tail);
  }

  /** What one pass of the server's loop makes of a whole frame. */
  lemma ServesFrame(f: Format, interpret: Interpreter, stopped: bool, s: Sent, tail: seq<Byte>)
    requires WellFormed(f) && Fits(f, s) && s.payload + tail != []
    ensures ServePass(f, interpret, stopped, Frame(s) + tail)
         == if stopped || !Decodes(f, s) || interpret(f.decode(HeaderOf(s), s.payload).value).None?
            then Rejected(tail)
            else Accepted(interpret(f.decode(HeaderOf(s), s.payload).value).value, tail)
  {
    FrameHead(f, s, tail);
    var bytes := Frame(s) + tail;
    assert bytes[f.header + |s.payload|..] == tail;
  }

  /** A frame that does not decode, or that no handler is registered for, ends it: the messages sent before are
      there, and the loop fails. */
  lemma {:induction false} ServerFailsAtBadFrame(
      f: Format, interpret: Interpreter, sent: seq<Sent>, bad: Sent, tail: seq<Byte>)
    requires WellFormed(f) && AllFit(f, sent) && AllDecode(f, sent) && AllAccepted(interpret, Received(f, sent))
    requires Fits(f, bad) && bad.payload + tail != []
    requires Decodes(f, bad) ==> interpret(f.decode(HeaderOf(bad), bad.payload).value).None?
    ensures ServeAll(f, interpret, false, Stream(f, sent) + (Frame(bad) + tail))
         == Served(Messages(interpret, Received(f, sent)), tail, false)
  {
    var end := Frame(bad) + tail;
    if sent == [] {
      assert Stream(f, sent) + end == end;
      ServesFrame(f, interpret, false, bad, tail);
    } else {
      var later := Stream(f, sent[1..]) + end;
      assert Stream(f, sent) + end == Frame(sent[0]) + later;
      ServesFrame(f, interpret, false, sent[0], later);
      LaterAccepted(f, interpret, sent);
      ServerFailsAtBadFrame(f, interpret, sent[1..], bad, tail);
    }
  }

  /** A stopped actor takes the first frame off the ring and loses it. */
  lemma StoppedLosesFrame(f: Format, interpret: Interpreter, s: Sent, tail: seq<Byte>)
    requires WellFormed(f) && Fits(f, s) && s.payload + tail != []
    ensures ServeAll(f, interpret, true, Frame(s) + tail) == Served([], tail, false)
  {
    ServesFrame(f, interpret, true, s, tail);
  }

  /** A first part of a frame: the server fails if the payload's length is more than the default size, and else
      takes what there is for the whole payload. */
  lemma ServesPartOfFrame(f: Format, interpret: Interpreter, s: Sent, n: nat)
    requires WellFormed(f) && Fits(f, s) && f.header < n < |Frame(s)|
    ensures var part, payload := Frame(s)[..n], s.payload[..n - f.header];
      ServeAll(f, interpret, false, part)
      == if |s.payload| > f.maxPayload then Served([], part, false)
         else match f.decode(HeaderOf(s), payload)
              case None => Served([], [], false)
              case Some(p) =>
                if interpret(p).None? then Served([], [], false) else Served([interpret(p).value], [], true)
  {
    var part := Frame(s)[..n];
    assert part[..f.header] == HeaderOf(s) && part[f.header..] == s.payload[..n - f.header];
    assert part[1] == HeaderOf(s)[1] && part[2] == HeaderOf(s)[2];
    assert Declared(f, part) == |s.payload|;
    assert part[f.header..f.header + (n - f.header)] == s.payload[..n - f.header];
    assert part[f.header + (n - f.header)..] == [];
  }

  lemma LaterAccepted(f: Format, interpret: Interpreter, sent: seq<Sent>)
    requires AllFit(f, sent) && AllDecode(f, sent) && AllAccepted(interpret, Received(f, sent)) && sent != []
    ensures AllAccepted(interpret, Received(f, sent[1..])) && Received(f, sent)[1..] == Received(f, sent[1..])
    ensures interpret(f.decode(HeaderOf(sent[0]), sent[0].payload).value).Some?
  {
    var first := f.decode(HeaderOf(sent[0]), sent[0].payload).value;
    assert Received(f, sent) == [first] + Received(f, sent[1..]);
    assert Received(f, sent)[0] == first;
    forall i | 0 <= i < |Received(f, sent[1..])|
      ensures interpret(Received(f, sent[1..])[i]).Some?
    {
      assert Received(f, sent[1..])[i] == Received(f, sent)[i + 1];
    }
  }

  /** The messages a stream holds are those of the payloads sent. */
  lemma {:induction false} StreamHolds(f: Format, interpret: Interpreter, sent: seq<Sent>, tail: seq<Byte>)
    requires WellFormed(f) && AllFit(f, sent) && AllDecode(f, sent) && Complete(sent, tail) && |tail| <= f.header
    requires AllAccepted(interpret, Received(f, sent))
    ensures MessagesOf(f, interpret, Stream(f, sent) + tail) == Messages(interpret, Received(f, sent))
  {
    if sent == [] {
      assert Stream(f, sent) + tail == tail;
    } else {
      var later := Stream(f, sent[1..]) + tail;
      assert Stream(f, sent) + tail == Frame(sent[0]) + later;
      MoreFollows(f, sent, tail);
      FrameHead(f, sent[0], later);
      LaterAccepted(f, interpret, sent);
      StreamHolds(f, interpret, sent[1..], tail);
    }
  }

  /** A first part of a frame, its header complete and some of its payload missing: the client waits for the rest if
      the payload's length is at most the default size, and fails if it is more. */
  lemma WaitsForTheRest(f: Format, s: Sent, n: nat)
    requires WellFormed(f) && Fits(f, s) && f.header < n < |Frame(s)|
    ensures Drain(f, Frame(s)[..n]) == Drained([], Frame(s)[..n], |s.payload| <= f.maxPayload)
  {
    var bytes := Frame(s)[..n];
    assert bytes[1] == HeaderOf(s)[1] && bytes[2] == HeaderOf(s)[2];
    assert Declared(f, bytes) == |s.payload|;
  }

  /** The example of a three-byte header and a two-byte payload. */
  lemma TwoBytePayload(f: Format)
    requires WellFormed(f) && f.header == 3 && f.decode([0, 2, 0], [7, 7]) == Some([7, 7])
    ensures Drain(f, [0, 2, 0, 7, 7]) == Drained([[7, 7]], [], true)
  {
    var s := Sent(0, [], [7, 7]);
    assert HeaderOf(s) == [0, 2, 0];
    assert Stream(f, [s]) == Frame(s) + Stream(f, []) && Stream(f, [s]) + [] == [0, 2, 0, 7, 7];
    assert Received(f, [s]) == [[7, 7]] + Received(f, []);
    DrainsWhatWasSent(f, [s], []);
  }
}
