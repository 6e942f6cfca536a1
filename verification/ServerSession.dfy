/** The receive side of a server session: its ring buffer, the drain loop, and the mailbox it fills. */
module ServerSession {
  import opened Common
  import opened Framing
  import opened ServerFraming
  import opened ActorObject

  class ReceiveSide {
    const format: Format
    const interpret: Interpreter
    const actor: Actor<Message>
    var ring: seq<Byte>

    constructor (format: Format, interpret: Interpreter, actor: Actor<Message>)
      ensures this.format == format && this.interpret == interpret && this.actor == actor && ring == []
    {
      this.format, this.interpret, this.actor := format, interpret, actor;
      ring := [];
    }

    /** Takes one frame, or what there is of it, off the ring. */
    method RecvStreamToBuffer(restSize: nat) returns (payload: Option<Payload>, newRestSize: nat)
      requires WellFormed(format) && restSize == |ring| > format.header
      modifies this`ring
      ensures payload.Some? ==> newRestSize == |ring|
      ensures var p := ServePass(format, interpret, actor.isStop, old(ring)); ring == p.rest
      ensures var n := Declared(format, old(ring)); var k := Min(n, |old(ring)| - format.header);
        payload == if |old(ring)| < n + format.header && n > format.maxPayload then None
                   else format.decode(old(ring)[..format.header], old(ring)[format.header..format.header + k])
    {
      newRestSize := restSize;
      var header := ring[..format.header];
      var payloadLength := Declared(format, header);
      if restSize < payloadLength + format.header {
        if payloadLength > format.maxPayload {
          return None, restSize;
        }
      }
      ring := ring[format.header..];
      var dequeued := Min(payloadLength, |ring|);
      var body := ring[..dequeued];
      ring := ring[dequeued..];
      assert body == old(ring)[format.header..format.header + dequeued];
      payload := format.decode(header, body);
      if payload.Some? {
        newRestSize := restSize - (dequeued + format.header);
      }
    }

    /** The body of the drain loop: one frame, one message, one push. */
    method ReceiveOne(restSize: nat) returns (success: bool, newRestSize: nat)
      requires WellFormed(format) && restSize == |ring| > format.header
      modifies this`ring, actor`storeQueue, actor`accepted
      ensures var p := ServePass(format, interpret, actor.isStop, old(ring));
        && ring == p.rest && success == p.Accepted?
        && (success ==> newRestSize == |ring|)
        && actor.storeQueue == old(actor.storeQueue) + (if success then [Some(p.message)] else [])
        && actor.accepted == old(actor.accepted) + (if success then [Some(p.message)] else [])
    {
      var payload;
      payload, newRestSize := RecvStreamToBuffer(restSize);
      if payload.None? {
        return false, newRestSize;
      }
      var message := interpret(payload.value);
      if message.None? {
        return false, newRestSize;
      }
      success := actor.SendMessage(message);
    }

    /** The loop of `OnRecvIoCompleted` after `transferred` bytes have arrived. */
    method OnRecvIoCompleted(transferred: seq<Byte>) returns (ok: bool)
      requires WellFormed(format)
      modifies this`ring, actor`storeQueue, actor`accepted
      ensures var s := ServeAll(format, interpret, actor.isStop, old(ring) + transferred);
        && ring == s.rest && ok == s.ok
        && actor.storeQueue == old(actor.storeQueue) + Posted(s.messages)
        && actor.accepted == old(actor.accepted) + Posted(s.messages)
    {
      ring := ring + transferred;
      ghost var start, sent := ring, [];
      var restSize := |ring|;
      while restSize > format.header
        invariant restSize == |ring|
        invariant Resumes(ServeAll(format, interpret, actor.isStop, start), sent,
                          ServeAll(format, interpret, actor.isStop, ring))
        invariant actor.storeQueue == old(actor.storeQueue) + Posted(sent)
        invariant actor.accepted == old(actor.accepted) + Posted(sent)
        decreases restSize
      {
        ghost var before := ring;
        var success;
        success, restSize := ReceiveOne(restSize);
        if !success {
          return false;
        }
        ghost var m := ServePass(format, interpret, actor.isStop, before).message;
        ResumeOne(ServeAll(format, interpret, actor.isStop, start), sent, m,
                  ServeAll(format, interpret, actor.isStop, ring));
        PostedSnoc(sent, m);
        sent := sent + [m];
      }
      return true;
    }
  }

  /** What is left to serve, after some messages have been sent. */
  ghost predicate Resumes(whole: Served, sent: seq<Message>, later: Served) {
    whole == later.(messages := sent + later.messages)
  }

  lemma ResumeOne(whole: Served, sent: seq<Message>, m: Message, later: Served)
    requires Resumes(whole, sent, Enqueue(m, later))
    ensures Resumes(whole, sent + [m], later)
  {
    assert sent + ([m] + later.messages) == sent + [m] + later.messages;
  }

  /** Messages as the mailbox holds them. */
  function Posted(messages: seq<Message>): seq<Option<Message>> {
    seq(|messages|, i requires 0 <= i < |messages| => Some(messages[i]))
  }

  lemma PostedSnoc(messages: seq<Message>, m: Message)
    ensures Posted(messages + [m]) == Posted(messages) + [Some(m)]
  {
  }
}
