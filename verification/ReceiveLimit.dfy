/** Framing when no receive delivers more than a fixed number of bytes: exactly when the way a stream
    is cut into such receives does not matter. */
module ReceiveLimit {
  import opened Common
  import opened Framing

  /** The parse that fails at every frame declaring more than the default size. */
  function Strict(f: Format, bytes: seq<Byte>): Drained
    requires WellFormed(f)
    decreases |bytes|
  {
    match HeadOf(f, bytes)
    case Waiting => Drained([], bytes, true)
    case Partial(n) => Drained([], bytes, n <= f.maxPayload)
    case Whole(n, packet, rest) =>
      if n > f.maxPayload then Drained([], bytes, false)
      else if packet.None? then Drained([], rest, false)
      else Push(packet.value, Strict(f, rest))
  }

  /** The first frame that declares more than the default size, if the parse reaches one, cannot be
      completed by a single receive, is not complete, or does not decode. */
  ghost predicate NoReceivableOversize(f: Format, limit: nat, bytes: seq<Byte>)
    requires WellFormed(f)
    decreases |bytes|
  {
    var h := HeadOf(f, bytes);
    h.Whole? && h.packet.Some? ==> if h.n > f.maxPayload then h.n > limit else NoReceivableOversize(f, limit, h.rest)
  }

  ghost predicate Bounded(chunks: seq<seq<Byte>>, limit: nat) {
    forall i :: 0 <= i < |chunks| ==> |chunks[i]| <= limit
  }

  /** What receives of at most `limit` bytes can make of a stream. */
  ghost predicate IsCut(chunks: seq<seq<Byte>>, limit: nat, stream: seq<Byte>) {
    Flatten(chunks) == stream && forall i :: 0 <= i < |chunks| ==> 0 < |chunks[i]| <= limit
  }

  // ---- The first frame ----

  /** The first frame with other bytes behind it. */
  lemma HeadThen(f: Format, bytes: seq<Byte>, tail: seq<Byte>) returns (frame: seq<Byte>)
    requires WellFormed(f) && HeadOf(f, bytes).Whole? && tail != []
    ensures bytes == frame + HeadOf(f, bytes).rest
    ensures HeadOf(f, frame + tail) == HeadOf(f, bytes).(rest := tail)
  {
    var n := Declared(f, bytes);
    frame := bytes[..f.header + n];
    assert Declared(f, frame + tail) == n;
    assert (frame + tail)[..f.header] == bytes[..f.header];
    assert (frame + tail)[f.header..f.header + n] == bytes[f.header..f.header + n];
    assert (frame + tail)[f.header + n..] == tail;
  }

  // ---- The strict parse does not depend on cuts ----

  function StrictReceive(f: Format, d: Drained, chunk: seq<Byte>): Drained
    requires WellFormed(f)
  {
    if !d.ok then d
    else
      var more := Strict(f, d.rest + chunk);
      Drained(d.packets + more.packets, more.rest, more.ok)
  }

  lemma {:induction false} StrictAppend(f: Format, x: seq<Byte>, y: seq<Byte>)
    requires WellFormed(f)
    ensures Same(StrictReceive(f, Strict(f, x), y), Strict(f, x + y))
    decreases |x|
  {
    HeadAppend(f, x, y);
    match HeadOf(f, x)
    case Whole(n, packet, rest) =>
      if n <= f.maxPayload && packet.Some? {
        StrictAppend(f, rest, y);
        StrictPush(f, packet.value, Strict(f, rest), y, Strict(f, rest + y));
      }
    case _ => assert [] + Strict(f, x + y).packets == Strict(f, x + y).packets;
  }

  lemma StrictPush(f: Format, packet: Payload, d: Drained, y: seq<Byte>, e: Drained)
    requires WellFormed(f) && Same(StrictReceive(f, d, y), e)
    ensures Same(StrictReceive(f, Push(packet, d), y), Push(packet, e))
  {
    if d.ok {
      var more := Strict(f, d.rest + y).packets;
      assert [packet] + d.packets + more == [packet] + (d.packets + more);
    }
  }

  // ---- Short receives make the loop strict ----

  /** On a ring of no more than a header and a receive the loop is strict. */
  lemma {:induction false} ShortIsStrict(f: Format, limit: nat, bytes: seq<Byte>)
    requires WellFormed(f) && |bytes| <= f.header + limit && NoReceivableOversize(f, limit, bytes)
    ensures Same(Drain(f, bytes), Strict(f, bytes))
    decreases |bytes|
  {
    DrainHead(f, bytes);
    match HeadOf(f, bytes)
    case Whole(n, packet, rest) => if n <= f.maxPayload && packet.Some? { ShortIsStrict(f, limit, rest); }
    case _ =>
  }

  /** What a strict parse may leave: too little to look at, or an admissible frame not yet complete. */
  ghost predicate Unfinished(f: Format, rest: seq<Byte>)
    requires WellFormed(f)
  {
    !HeadOf(f, rest).Whole? && (HeadOf(f, rest).Partial? ==> HeadOf(f, rest).n <= f.maxPayload)
  }

  lemma {:induction false} StrictLeftover(f: Format, limit: nat, x: seq<Byte>, y: seq<Byte>)
    requires WellFormed(f) && Strict(f, x).ok && NoReceivableOversize(f, limit, x + y)
    ensures NoReceivableOversize(f, limit, Strict(f, x).rest + y) && Unfinished(f, Strict(f, x).rest)
    decreases |x|
  {
    HeadAppend(f, x, y);
    match HeadOf(f, x)
    case Whole(_, _, rest) => StrictLeftover(f, limit, rest, y);
    case _ =>
  }

  /** So one more receive is drained as the strict parse would. */
  lemma NextIsStrict(f: Format, limit: nat, rest: seq<Byte>, y: seq<Byte>)
    requires WellFormed(f) && |y| <= limit && NoReceivableOversize(f, limit, rest + y) && Unfinished(f, rest)
    ensures Same(Drain(f, rest + y), Strict(f, rest + y))
  {
    HeadAppend(f, rest, y);
    if HeadOf(f, rest).Waiting? {
      ShortIsStrict(f, limit, rest + y);
    } else {
      DrainHead(f, rest + y);
      match HeadOf(f, rest + y)
      case Whole(_, packet, later) => if packet.Some? { ShortIsStrict(f, limit, later); }
      case _ =>
    }
  }

  lemma {:induction false} ReceivablePrefix(f: Format, limit: nat, x: seq<Byte>, y: seq<Byte>)
    requires WellFormed(f) && NoReceivableOversize(f, limit, x + y)
    ensures NoReceivableOversize(f, limit, x)
    decreases |x|
  {
    HeadAppend(f, x, y);
    match HeadOf(f, x)
    case Whole(n, packet, rest) => if n <= f.maxPayload && packet.Some? { ReceivablePrefix(f, limit, rest, y); }
    case _ =>
  }

  /** Receives of at most `limit` bytes give what the strict parse of the whole stream gives. */
  lemma {:induction false} LimitedIsStrict(f: Format, limit: nat, chunks: seq<seq<Byte>>)
    requires WellFormed(f) && Bounded(chunks, limit) && NoReceivableOversize(f, limit, Flatten(chunks))
    ensures Same(ReceiveAll(f, chunks), Strict(f, Flatten(chunks)))
  {
    if chunks != [] {
      var init, last := chunks[..|chunks| - 1], chunks[|chunks| - 1];
      var x := Flatten(init);
      ReceivablePrefix(f, limit, x, last);
      LimitedIsStrict(f, limit, init);
      StrictAppend(f, x, last);
      if Strict(f, x).ok {
        StrictLeftover(f, limit, x, last);
        NextIsStrict(f, limit, Strict(f, x).rest, last);
      }
    }
  }

  /** With a default size of at least the limit there is no receivable oversize frame, in any stream. */
  lemma {:induction false} LargeDefaultSize(f: Format, limit: nat, bytes: seq<Byte>)
    requires WellFormed(f) && f.maxPayload >= limit
    ensures NoReceivableOversize(f, limit, bytes)
    decreases |bytes|
  {
    match HeadOf(f, bytes)
    case Whole(_, _, rest) => LargeDefaultSize(f, limit, rest);
    case _ =>
  }

  /** Receives of no more than the default size never let an oversize frame through: every stream, however
      it is cut into them, gives what its strict parse gives. */
  lemma SmallReceivesAgree(f: Format, chunks: seq<seq<Byte>>)
    requires WellFormed(f) && Bounded(chunks, f.maxPayload)
    ensures Same(ReceiveAll(f, chunks), Strict(f, Flatten(chunks)))
  {
    LargeDefaultSize(f, f.maxPayload, Flatten(chunks));
    LimitedIsStrict(f, f.maxPayload, chunks);
  }

  // ---- A receivable oversize frame makes a difference ----

  function Singles(s: seq<Byte>): seq<seq<Byte>> {
    if s == [] then [] else Singles(s[..|s| - 1]) + [[s[|s| - 1]]]
  }

  lemma {:induction false} SinglesCut(s: seq<Byte>, limit: nat)
    requires limit >= 1
    ensures IsCut(Singles(s), limit, s)
  {
    if s != [] {
      var init := s[..|s| - 1];
      SinglesCut(init, limit);
      FlattenSnoc(Singles(init), [s[|s| - 1]]);
      assert init + [s[|s| - 1]] == s;
    }
  }

  lemma {:induction false} FlattenConcat(a: seq<seq<Byte>>, b: seq<seq<Byte>>)
    ensures Flatten(a + b) == Flatten(a) + Flatten(b)
  {
    if b == [] {
      assert a + b == a && Flatten(a) + [] == Flatten(a);
    } else {
      FlattenConcat(a, b[..|b| - 1]);
      assert (a + b)[..|a + b| - 1] == a + b[..|b| - 1];
    }
  }

  lemma {:induction false} MorePackets(f: Format, a: seq<seq<Byte>>, b: seq<seq<Byte>>)
    requires WellFormed(f)
    ensures |ReceiveAll(f, a).packets| <= |ReceiveAll(f, a + b).packets|
  {
    if b == [] {
      assert a + b == a;
    } else {
      MorePackets(f, a, b[..|b| - 1]);
      assert (a + b)[..|a + b| - 1] == a + b[..|b| - 1];
    }
  }

  /** A stream as the parse meets its first receivable oversize frame: what is before that frame with its
      header, its payload, and the rest. */
  datatype Oversize = Oversize(before: seq<Byte>, header: seq<Byte>, payload: seq<Byte>, after: seq<Byte>)

  ghost predicate IsOversize(f: Format, limit: nat, o: Oversize)
    requires WellFormed(f)
  {
    && |o.header| == f.header && Declared(f, o.header) == |o.payload| && f.maxPayload < |o.payload| <= limit
    && f.decode(o.header, o.payload).Some?
    && Strict(f, o.before).ok && Strict(f, o.before).rest == o.header
  }

  lemma OversizeFirst(f: Format, limit: nat, bytes: seq<Byte>) returns (o: Oversize)
    requires WellFormed(f) && !NoReceivableOversize(f, limit, bytes) && HeadOf(f, bytes).n > f.maxPayload
    ensures IsOversize(f, limit, o) && bytes == o.before + o.payload + o.after
    ensures Strict(f, o.before).packets == Strict(f, bytes).packets
  {
    var n := Declared(f, bytes);
    var header := bytes[..f.header];
    o := Oversize(header, header, bytes[f.header..f.header + n], bytes[f.header + n..]);
  }

  lemma {:induction false} FirstOversize(f: Format, limit: nat, bytes: seq<Byte>) returns (o: Oversize)
    requires WellFormed(f) && !NoReceivableOversize(f, limit, bytes)
    ensures IsOversize(f, limit, o) && bytes == o.before + o.payload + o.after
    ensures Strict(f, o.before).packets == Strict(f, bytes).packets
    decreases |bytes|
  {
    var head := HeadOf(f, bytes);
    if head.n > f.maxPayload {
      o := OversizeFirst(f, limit, bytes);
    } else {
      var inner := FirstOversize(f, limit, head.rest);
      LeavesHeader(f, limit, inner);
      var frame := HeadThen(f, bytes, inner.before);
      o := inner.(before := frame + inner.before);
      StrictFirst(f, frame + inner.before);
      StrictFirst(f, bytes);
      Regroup(frame, inner.before, inner.payload, inner.after);
    }
  }

  lemma StrictFirst(f: Format, bytes: seq<Byte>)
    requires WellFormed(f) && HeadOf(f, bytes).Whole?
    requires HeadOf(f, bytes).n <= f.maxPayload && HeadOf(f, bytes).packet.Some?
    ensures var h := HeadOf(f, bytes); Strict(f, bytes) == Push(h.packet.value, Strict(f, h.rest))
  {
  }

  lemma Regroup(a: seq<Byte>, b: seq<Byte>, c: seq<Byte>, d: seq<Byte>)
    ensures a + (b + c + d) == a + b + c + d
  {
  }

  lemma LeavesHeader(f: Format, limit: nat, o: Oversize)
    requires WellFormed(f) && IsOversize(f, limit, o)
    ensures o.before != []
  {
  }

  /** The oversize frame's payload in one receive, every other byte on its own: the frame gets through. */
  lemma OversizeGetsThrough(f: Format, limit: nat, stream: seq<Byte>) returns (chunks: seq<seq<Byte>>)
    requires WellFormed(f) && !NoReceivableOversize(f, limit, stream)
    ensures IsCut(chunks, limit, stream)
    ensures |ReceiveAll(f, chunks).packets| > |Strict(f, stream).packets|
  {
    var o := FirstOversize(f, limit, stream);
    var before := HeaderOnItsOwn(f, o.before, o.header);
    PayloadTaken(f, before, o.header, o.payload);
    MorePackets(f, before + [o.payload], Singles(o.after));
    chunks := before + [o.payload] + Singles(o.after);
    JoinCuts(before, o.payload, o.after, limit, o.before);
  }

  /** Up to a header left over, byte by byte. */
  lemma HeaderOnItsOwn(f: Format, x: seq<Byte>, header: seq<Byte>) returns (chunks: seq<seq<Byte>>)
    requires WellFormed(f) && Strict(f, x).ok && Strict(f, x).rest == header
    ensures IsCut(chunks, 1, x) && ReceiveAll(f, chunks).ok && ReceiveAll(f, chunks).rest == header
    ensures ReceiveAll(f, chunks).packets == Strict(f, x).packets
  {
    chunks := Singles(x);
    SinglesCut(x, 1);
    SmallReceivesAgree(f, chunks);
  }

  lemma JoinCuts(before: seq<seq<Byte>>, payload: seq<Byte>, after: seq<Byte>, limit: nat, x: seq<Byte>)
    requires IsCut(before, 1, x) && 0 < |payload| <= limit
    ensures IsCut(before + [payload] + Singles(after), limit, x + payload + after)
  {
    SinglesCut(after, limit);
    FlattenSnoc(before, payload);
    FlattenConcat(before + [payload], Singles(after));
  }

  lemma PayloadTaken(f: Format, chunks: seq<seq<Byte>>, header: seq<Byte>, payload: seq<Byte>)
    requires WellFormed(f) && ReceiveAll(f, chunks).ok && ReceiveAll(f, chunks).rest == header
    requires |header| == f.header && |payload| == Declared(f, header) > 0 && f.decode(header, payload).Some?
    ensures |ReceiveAll(f, chunks + [payload]).packets| == |ReceiveAll(f, chunks).packets| + 1
  {
    assert (chunks + [payload])[..|chunks|] == chunks;
    var frame := header + payload;
    assert Declared(f, frame) == |payload|;
    assert frame[..f.header] == header && frame[f.header..f.header + |payload|] == payload;
    assert frame[f.header + |payload|..] == [];
    assert Drain(f, frame) == Push(f.decode(header, payload).value, Drain(f, []));
  }

  /** All the ways to cut a stream into receives of at most `limit` bytes give the same packets, the same
      result and the same leftover bytes if and only if the parse reaches no oversize frame that one such
      receive can complete and that decodes. */
  lemma CutsAgreeExactly(f: Format, limit: nat, stream: seq<Byte>)
    requires WellFormed(f) && limit >= 1
    ensures (forall a, b :: IsCut(a, limit, stream) && IsCut(b, limit, stream) ==>
               Same(ReceiveAll(f, a), ReceiveAll(f, b)))
       <==> NoReceivableOversize(f, limit, stream)
  {
    if NoReceivableOversize(f, limit, stream) {
      forall a, b | IsCut(a, limit, stream) && IsCut(b, limit, stream)
        ensures Same(ReceiveAll(f, a), ReceiveAll(f, b))
      {
        LimitedIsStrict(f, limit, a);
        LimitedIsStrict(f, limit, b);
      }
    } else {
      var a := OversizeGetsThrough(f, limit, stream);
      SinglesCut(stream, limit);
      SinglesCut(stream, 1);
      SmallReceivesAgree(f, Singles(stream));
      assert !Same(ReceiveAll(f, a), ReceiveAll(f, Singles(stream)));
    }
  }

  /** A default size below the limit does let a stream of receivable chunks depend on its cut. */
  lemma SomeCutsDiffer(limit: nat) returns (f: Format, stream: seq<Byte>)
    requires limit >= 2
    ensures WellFormed(f) && f.maxPayload < limit && !NoReceivableOversize(f, limit, stream)
  {
    f := Format(3, 1, (header, payload) => Some(payload));
    stream := [0, 2, 0, 7, 7];
    assert Declared(f, stream) == 2;
  }
}
