/** What the server makes of a stream that arrives in receives: its loop drains the ring after each,
    and what a receive leaves unfinished the loop does not wait for. */
module ServedStream {
  import opened Common
  import opened Framing
  import opened ServerFraming

  function ServeMore(f: Format, interpret: Interpreter, s: Served, chunk: seq<Byte>): Served
    requires WellFormed(f)
  {
    if !s.ok then s
    else
      var more := ServeAll(f, interpret, false, s.rest + chunk);
      Served(s.messages + more.messages, more.rest, more.ok)
  }

  /** A session that receives the chunks one after the other. A failure ends its receives. */
  function ServeChunks(f: Format, interpret: Interpreter, chunks: seq<seq<Byte>>): Served
    requires WellFormed(f)
  {
    if chunks == [] then Served([], [], true)
    else ServeMore(f, interpret, ServeChunks(f, interpret, chunks[..|chunks| - 1]), chunks[|chunks| - 1])
  }

  // ---- What the stream says ----

  /** A whole frame that decodes to a message. */
  predicate IsMessage(interpret: Interpreter, h: Head) {
    h.Whole? && h.packet.Some? && interpret(h.packet.value).Some?
  }

  /** The messages of a byte stream, up to its first partial, undecodable or unknown frame. */
  function MessagesOf(f: Format, interpret: Interpreter, bytes: seq<Byte>): seq<Message>
    requires WellFormed(f)
    decreases |bytes|
  {
    var h := HeadOf(f, bytes);
    if IsMessage(interpret, h) then [interpret(h.packet.value).value] + MessagesOf(f, interpret, h.rest) else []
  }

  /** The bytes from that frame on. */
  function Residue(f: Format, interpret: Interpreter, bytes: seq<Byte>): seq<Byte>
    requires WellFormed(f)
    decreases |bytes|
  {
    var h := HeadOf(f, bytes);
    if IsMessage(interpret, h) then Residue(f, interpret, h.rest) else bytes
  }

  lemma {:induction false} StreamAppend(f: Format, interpret: Interpreter, x: seq<Byte>, y: seq<Byte>)
    requires WellFormed(f)
    ensures MessagesOf(f, interpret, x + y)
         == MessagesOf(f, interpret, x) + MessagesOf(f, interpret, Residue(f, interpret, x) + y)
    ensures Residue(f, interpret, x + y) == Residue(f, interpret, Residue(f, interpret, x) + y)
    decreases |x|
  {
    var h := HeadOf(f, x);
    if IsMessage(interpret, h) {
      HeadAppend(f, x, y);
      StreamAppend(f, interpret, h.rest, y);
      assert IsMessage(interpret, HeadOf(f, x + y)) && HeadOf(f, x + y).rest == h.rest + y;
      Regroup([interpret(h.packet.value).value], MessagesOf(f, interpret, h.rest),
              MessagesOf(f, interpret, Residue(f, interpret, x) + y));
    } else {
      assert [] + MessagesOf(f, interpret, x + y) == MessagesOf(f, interpret, x + y);
    }
  }

  lemma Regroup(a: seq<Message>, b: seq<Message>, c: seq<Message>)
    ensures a + (b + c) == a + b + c
  {
  }

  // ---- Receives that leave whole frames ----

  /** The parse of the bytes meets no partial frame. */
  ghost predicate WholeFrames(f: Format, interpret: Interpreter, bytes: seq<Byte>)
    requires WellFormed(f)
    decreases |bytes|
  {
    var h := HeadOf(f, bytes);
    !h.Partial? && (IsMessage(interpret, h) ==> WholeFrames(f, interpret, h.rest))
  }

  /** Every receive leaves whole frames in the ring. */
  ghost predicate WholeReceives(f: Format, interpret: Interpreter, chunks: seq<seq<Byte>>)
    requires WellFormed(f)
  {
    if chunks == [] then true
    else
      var init := chunks[..|chunks| - 1];
      var s := ServeChunks(f, interpret, init);
      WholeReceives(f, interpret, init) && (s.ok ==> WholeFrames(f, interpret, s.rest + chunks[|chunks| - 1]))
  }

  lemma ServeHead(f: Format, interpret: Interpreter, bytes: seq<Byte>)
    requires WellFormed(f) && HeadOf(f, bytes).Whole?
    ensures var h, s := HeadOf(f, bytes), ServeAll(f, interpret, false, bytes);
      if IsMessage(interpret, h) then
        s == Enqueue(interpret(h.packet.value).value, ServeAll(f, interpret, false, h.rest))
      else s == Served([], h.rest, false)
  {
  }

  /** The frame a failed loop stopped at, or what a finished one leaves. */
  ghost predicate Stopped(f: Format, interpret: Interpreter, s: Served, residue: seq<Byte>)
    requires WellFormed(f)
  {
    if s.ok then s.rest == residue && |residue| <= f.header
    else HeadOf(f, residue).Whole? && !IsMessage(interpret, HeadOf(f, residue))
  }

  /** On whole frames the loop takes the messages of the bytes and stops where they end. */
  lemma {:induction false} ServesWhole(f: Format, interpret: Interpreter, bytes: seq<Byte>)
    requires WellFormed(f) && WholeFrames(f, interpret, bytes)
    ensures var s := ServeAll(f, interpret, false, bytes);
      s.messages == MessagesOf(f, interpret, bytes) && Stopped(f, interpret, s, Residue(f, interpret, bytes))
    decreases |bytes|
  {
    var h := HeadOf(f, bytes);
    if h.Whole? {
      ServeHead(f, interpret, bytes);
      if IsMessage(interpret, h) {
        ServesWhole(f, interpret, h.rest);
      }
    }
  }

  /** Receives that leave whole frames yield exactly the messages of the stream they make up. */
  lemma {:induction false} WholeReceivesServed(f: Format, interpret: Interpreter, chunks: seq<seq<Byte>>)
    requires WellFormed(f) && WholeReceives(f, interpret, chunks)
    ensures var s, stream := ServeChunks(f, interpret, chunks), Flatten(chunks);
      s.messages == MessagesOf(f, interpret, stream) && Stopped(f, interpret, s, Residue(f, interpret, stream))
  {
    if chunks != [] {
      var init, last := chunks[..|chunks| - 1], chunks[|chunks| - 1];
      WholeReceivesServed(f, interpret, init);
      var s, x := ServeChunks(f, interpret, init), Flatten(init);
      StreamAppend(f, interpret, x, last);
      if s.ok {
        ServesWhole(f, interpret, s.rest + last);
      } else {
        HeadAppend(f, Residue(f, interpret, x), last);
        assert MessagesOf(f, interpret, x) + [] == MessagesOf(f, interpret, x);
      }
    }
  }

  // ---- Exactly when the server serves what the client would take ----

  lemma AcceptedParts(interpret: Interpreter, a: seq<Payload>, b: seq<Payload>)
    ensures AllAccepted(interpret, a + b) <==> AllAccepted(interpret, a) && AllAccepted(interpret, b)
  {
    if AllAccepted(interpret, a + b) {
      assert forall i :: 0 <= i < |a| ==> (a + b)[i] == a[i];
      assert forall i :: 0 <= i < |b| ==> (a + b)[|a| + i] == b[i];
    }
  }

  lemma {:induction false} MessagesConcat(interpret: Interpreter, a: seq<Payload>, b: seq<Payload>)
    requires AllAccepted(interpret, a) && AllAccepted(interpret, b) && AllAccepted(interpret, a + b)
    ensures Messages(interpret, a + b) == Messages(interpret, a) + Messages(interpret, b)
  {
    if a == [] {
      assert a + b == b && [] + Messages(interpret, b) == Messages(interpret, b);
    } else {
      assert (a + b)[1..] == a[1..] + b;
      AcceptedParts(interpret, [a[0]], a[1..]);
      assert [a[0]] + a[1..] == a;
      AcceptedParts(interpret, a[1..], b);
      MessagesConcat(interpret, a[1..], b);
    }
  }

  /** The client's loop has taken these packets and left these bytes; the server's has taken the same
      messages and left the same. */
  ghost predicate Agrees(interpret: Interpreter, d: Drained, s: Served)
    requires AllAccepted(interpret, d.packets)
  {
    s == Served(Messages(interpret, d.packets), d.rest, true)
  }

  ghost predicate AgreesAt(f: Format, interpret: Interpreter, chunks: seq<seq<Byte>>, i: nat)
    requires WellFormed(f) && i <= |chunks|
  {
    var d := ReceiveAll(f, chunks[..i]);
    AllAccepted(interpret, d.packets) && Agrees(interpret, d, ServeChunks(f, interpret, chunks[..i]))
  }

  ghost predicate ShortAt(f: Format, chunks: seq<seq<Byte>>, i: nat)
    requires WellFormed(f) && i <= |chunks|
  {
    |ReceiveAll(f, chunks[..i]).rest| <= f.header
  }

  ghost predicate AlwaysAgrees(f: Format, interpret: Interpreter, chunks: seq<seq<Byte>>, k: nat)
    requires WellFormed(f) && k <= |chunks|
  {
    forall i :: 0 <= i <= k ==> AgreesAt(f, interpret, chunks, i)
  }

  ghost predicate AlwaysShort(f: Format, chunks: seq<seq<Byte>>, k: nat)
    requires WellFormed(f) && k <= |chunks|
  {
    forall i :: 0 <= i <= k ==> ShortAt(f, chunks, i)
  }

  /** One receive more, from where they agree. */
  lemma NextAgrees(f: Format, interpret: Interpreter, d: Drained, s: Served, chunk: seq<Byte>)
    requires WellFormed(f) && d.ok && Receive(f, d, chunk).ok && AllAccepted(interpret, Receive(f, d, chunk).packets)
    requires AllAccepted(interpret, d.packets) && Agrees(interpret, d, s)
    ensures Agrees(interpret, Receive(f, d, chunk), ServeMore(f, interpret, s, chunk))
       <==> |Receive(f, d, chunk).rest| <= f.header
  {
    var more := Drain(f, d.rest + chunk);
    AcceptedParts(interpret, d.packets, more.packets);
    MessagesConcat(interpret, d.packets, more.packets);
    if |more.rest| <= f.header {
      ServesWholeFrames(f, interpret, d.rest + chunk);
    } else {
      SwallowsPartialFrame(f, interpret, d.rest + chunk);
    }
  }

  lemma OneReceiveBefore(f: Format, interpret: Interpreter, chunks: seq<seq<Byte>>, i: nat)
    requires WellFormed(f) && i < |chunks|
    ensures ReceiveAll(f, chunks[..i + 1]) == Receive(f, ReceiveAll(f, chunks[..i]), chunks[i])
    ensures ServeChunks(f, interpret, chunks[..i + 1])
         == ServeMore(f, interpret, ServeChunks(f, interpret, chunks[..i]), chunks[i])
  {
    assert chunks[..i + 1][..i] == chunks[..i];
  }

  /** If the client parses the stream to its end into accepted messages, the server's receives keep in
      step with the client's, messages and ring, if and only if none of them leaves a partial frame. */
  lemma {:induction false} KeepsInStepExactly(f: Format, interpret: Interpreter, chunks: seq<seq<Byte>>, k: nat)
    requires WellFormed(f) && k <= |chunks|
    requires ReceiveAll(f, chunks[..k]).ok && AllAccepted(interpret, ReceiveAll(f, chunks[..k]).packets)
    ensures AlwaysAgrees(f, interpret, chunks, k) <==> AlwaysShort(f, chunks, k)
  {
    if k == 0 {
      StartsInStep(f, interpret, chunks);
    } else {
      GoodBefore(f, interpret, chunks, k - 1);
      KeepsInStepExactly(f, interpret, chunks, k - 1);
      UpTo(f, interpret, chunks, k);
      if AgreesAt(f, interpret, chunks, k - 1) {
        NextInStep(f, interpret, chunks, k - 1);
      }
    }
  }

  lemma StartsInStep(f: Format, interpret: Interpreter, chunks: seq<seq<Byte>>)
    requires WellFormed(f)
    ensures AlwaysAgrees(f, interpret, chunks, 0) && AlwaysShort(f, chunks, 0)
  {
    assert chunks[..0] == [];
  }

  lemma UpTo(f: Format, interpret: Interpreter, chunks: seq<seq<Byte>>, k: nat)
    requires WellFormed(f) && 0 < k <= |chunks|
    ensures AlwaysAgrees(f, interpret, chunks, k) <==>
      AlwaysAgrees(f, interpret, chunks, k - 1) && AgreesAt(f, interpret, chunks, k)
    ensures AlwaysShort(f, chunks, k) <==> AlwaysShort(f, chunks, k - 1) && ShortAt(f, chunks, k)
    ensures AlwaysAgrees(f, interpret, chunks, k - 1) ==> AgreesAt(f, interpret, chunks, k - 1)
  {
  }

  lemma GoodBefore(f: Format, interpret: Interpreter, chunks: seq<seq<Byte>>, k: nat)
    requires WellFormed(f) && k < |chunks|
    requires ReceiveAll(f, chunks[..k + 1]).ok && AllAccepted(interpret, ReceiveAll(f, chunks[..k + 1]).packets)
    ensures ReceiveAll(f, chunks[..k]).ok && AllAccepted(interpret, ReceiveAll(f, chunks[..k]).packets)
  {
    OneReceiveBefore(f, interpret, chunks, k);
    var d := ReceiveAll(f, chunks[..k]);
    AcceptedParts(interpret, d.packets, Drain(f, d.rest + chunks[k]).packets);
  }

  lemma NextInStep(f: Format, interpret: Interpreter, chunks: seq<seq<Byte>>, k: nat)
    requires WellFormed(f) && k < |chunks| && AgreesAt(f, interpret, chunks, k)
    requires ReceiveAll(f, chunks[..k + 1]).ok && AllAccepted(interpret, ReceiveAll(f, chunks[..k + 1]).packets)
    ensures AgreesAt(f, interpret, chunks, k + 1) <==> ShortAt(f, chunks, k + 1)
  {
    GoodBefore(f, interpret, chunks, k);
    OneReceiveBefore(f, interpret, chunks, k);
    NextAgrees(f, interpret, ReceiveAll(f, chunks[..k]), ServeChunks(f, interpret, chunks[..k]), chunks[k]);
  }

  /** A receive that ends inside a frame is served wrongly: here a two-byte payload arrives in two
      receives, and the server's only message is that of its first byte. */
  lemma PartialFrameMisserved() returns (f: Format, interpret: Interpreter, chunks: seq<seq<Byte>>)
    ensures WellFormed(f)
    ensures ServeChunks(f, interpret, chunks).messages == [1] && MessagesOf(f, interpret, Flatten(chunks)) == [2]
  {
    f := Format(3, 10, (header, payload) => Some(payload));
    interpret := payload => Some(|payload|);
    var a: seq<Byte>, b: seq<Byte> := [0, 2, 0, 7], [7];
    chunks := [a, b];
    assert chunks[..1] == [a] && [a][..0] == [];
    assert Flatten([a]) == [] + a;
    assert Flatten(chunks) == [0, 2, 0, 7, 7];
    assert Declared(f, a) == 2 && Declared(f, Flatten(chunks)) == 2;
    assert ServeAll(f, interpret, false, []) == Served([], [], true);
    assert ServeAll(f, interpret, false, a) == Served([1] + [], [], true);
    assert ServeChunks(f, interpret, [a]) == ServeMore(f, interpret, ServeChunks(f, interpret, []), a);
    assert [] + a == a;
    assert ServeAll(f, interpret, false, b) == Served([], b, true);
    assert [] + b == b;
  }
}
