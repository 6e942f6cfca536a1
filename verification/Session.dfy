/** `Session`, with its methods run to completion one at a time. Each is proved to be the
    whole-call specification that one thread of the step system amounts to. */
module SessionObject {
  import opened Common
  import opened SessionSteps
  import opened SessionSends
  import opened SessionSpec

  class Session {
    var ioMode: IoMode
    var sendQueue: seq<Buffer>
    const sendBufferStore: array<Buffer>
    var bufferCount: int
    var ioCount: int
    /** How often `ServerCore::ReleaseSession` was called with this session's key. */
    var releases: nat
    /** The kernel holds the overlapped send. */
    var posted: bool

    // History
    ghost var owner: Owner
    ghost var enqueued: seq<Buffer>
    ghost var wire: seq<seq<Buffer>>
    ghost var freed: seq<Buffer>
    ghost var disconnect: DisconnectPc
    ghost var rest: Life

    /** The send data as the step system sees it. */
    ghost function SendData(): Pump
      reads this, sendBufferStore
    {
      Pump(ioMode, sendQueue, sendBufferStore[..], bufferCount, posted, disconnect, owner, enqueued, wire, freed)
    }

    /** The IO count as the step system sees it. */
    ghost function IoData(): Life
      reads this
    {
      rest.(ioCount := ioCount, releases := releases)
    }

    ghost predicate Valid()
      reads this, sendBufferStore
    {
      Resting(SendData())
    }

    constructor ()
      ensures Valid() && fresh(sendBufferStore)
      ensures ioMode == NoneSending && sendQueue == [] && bufferCount == 0 && ioCount == 0 && releases == 0 && !posted
      ensures enqueued == [] && wire == [] && freed == []
    {
      ioMode, sendQueue, bufferCount, ioCount, releases, posted := NoneSending, [], 0, 0, 0, false;
      sendBufferStore := new Buffer[ONE_SEND_WSABUF_MAX];
      owner, enqueued, wire, freed, disconnect := NoOwner, [], [], [], NotYet;
      rest := Life(0, 0, false, TakeHold, false, 0, AtAccept);
      new;
      assert SendData().store[..0] == [];
    }

    /** `ioMode.compare_exchange_strong`; a failed exchange reports the value found. */
    method CompareExchange(expected: IoMode, desired: IoMode) returns (swapped: bool, seen: IoMode)
      modifies this`ioMode
      ensures swapped == (old(ioMode) == expected)
      ensures ioMode == if swapped then desired else old(ioMode)
      ensures seen == if swapped then expected else old(ioMode)
    {
      swapped := ioMode == expected;
      if swapped {
        ioMode, seen := desired, expected;
      } else {
        seen := ioMode;
      }
    }

    method IncreaseIOCount()
      modifies this`ioCount
      ensures ioCount == old(ioCount) + 1
    {
      ioCount := ioCount + 1;
    }

    method DecreaseIOCount()
      modifies this`ioCount, this`releases
      ensures IoData() == Decrease(old(IoData()))
      ensures ioCount == old(ioCount) - 1 && releases == old(releases) + if ioCount == 0 then 1 else 0
    {
      ioCount := ioCount - 1;
      if ioCount == 0 {
        releases := releases + 1;
      }
    }

    /** Moves the first n queued buffers into the store. */
    method FillStore(n: nat)
      requires n <= |sendQueue| && n <= sendBufferStore.Length
      modifies this`sendQueue, sendBufferStore
      ensures sendQueue == old(sendQueue)[n..]
      ensures sendBufferStore[..] == old(sendQueue)[..n] + old(sendBufferStore[n..])
    {
      var i := 0;
      while i < n
        invariant i <= n && sendQueue == old(sendQueue)[i..]
        invariant sendBufferStore[..i] == old(sendQueue)[..i]
        invariant sendBufferStore[i..] == old(sendBufferStore[i..])
      {
        sendBufferStore[i] := sendQueue[0];
        sendQueue := sendQueue[1..];
        i := i + 1;
      }
      assert sendBufferStore[..] == sendBufferStore[..n] + sendBufferStore[n..];
    }

    /** The rest of a pass of `DoSend` that owns the send side and read a non-zero size. */
    method PostBatch(restSize: nat, postOk: bool) returns (ok: bool)
      requires sendBufferStore.Length == ONE_SEND_WSABUF_MAX && restSize == BatchSize(sendQueue) > 0
      requires ioMode == Sending
      modifies this, sendBufferStore
      ensures SendData() == DoSendPump(old(SendData()).(ioMode := NoneSending), postOk)
      ensures IoData() == DoSendLife(old(SendData()).(ioMode := NoneSending), old(IoData()), postOk)
      ensures ok == postOk
    {
      FillStore(restSize);
      bufferCount := bufferCount + restSize;
      assert sendBufferStore[..restSize] == old(sendQueue)[..restSize];
      ok := Post(restSize, postOk);
    }

    /** The call of `WSASend` and what follows its outcome. */
    method Post(restSize: nat, postOk: bool) returns (ok: bool)
      requires restSize <= sendBufferStore.Length
      modifies this
      ensures var p, l := old(SendData()), old(IoData()).(ioCount := old(ioCount) + 1);
        && SendData() == (if !ok then p.(owner := FailedPost)
                          else p.(posted := true, owner := Kernel, wire := old(wire) + [sendBufferStore[..restSize]]))
        && IoData() == (if ok then l else Decrease(l))
      ensures ok == postOk
    {
      IncreaseIOCount();
      if !postOk {
        owner := FailedPost;
        DecreaseIOCount();
        return false;
      }
      posted, owner, wire := true, Kernel, wire + [sendBufferStore[..restSize]];
      return true;
    }

    /** If the send side is free and the queue is not empty, one post of the first 20 buffers of the queue, or of
        all if there are fewer, with one IO counted while it is posted; otherwise nothing. False exactly if that
        post failed. */
    method DoSend(postOk: bool) returns (ok: bool)
      requires Valid()
      modifies this, sendBufferStore
      ensures Valid()
      ensures old(ioMode) == Sending || old(sendQueue) == [] ==>
        ok && SendData() == old(SendData()) && IoData() == old(IoData())
      ensures old(ioMode) == NoneSending && old(sendQueue) != [] ==>
        var n := Min(20, |old(sendQueue)|);
        && ok == postOk && ioMode == Sending && sendQueue == old(sendQueue)[n..]
        && bufferCount == n && sendBufferStore[..n] == old(sendQueue)[..n]
        && posted == ok && wire == old(wire) + (if ok then [old(sendQueue)[..n]] else [])
        && ioCount == old(ioCount) + (if ok then 1 else 0) && freed == old(freed)
      ensures SendData() == DoSendPump(old(SendData()), postOk)
      ensures IoData() == DoSendLife(old(SendData()), old(IoData()), postOk)
      ensures !ok <==> owner == FailedPost && old(owner) != FailedPost
      ensures old(ioMode) == Sending ==> ok
    {
      ghost var before := SendData();
      DoSendRests(before, postOk);
      ok := TrySend(postOk);
    }

    /** The loop of `DoSend`. */
    method TrySend(postOk: bool) returns (ok: bool)
      requires sendBufferStore.Length == ONE_SEND_WSABUF_MAX
      modifies this, sendBufferStore
      ensures SendData() == DoSendPump(old(SendData()), postOk)
      ensures IoData() == DoSendLife(old(SendData()), old(IoData()), postOk)
      ensures !ok <==> old(ioMode) == NoneSending && old(sendQueue) != [] && !postOk
    {
      var expected := NoneSending;
      while true
        invariant SendData() == old(SendData()).(ioMode := ioMode) && IoData() == old(IoData())
        invariant if expected == NoneSending then ioMode == old(ioMode)
                  else ioMode == Sending && old(ioMode) == NoneSending && sendQueue == []
        decreases if expected == NoneSending then 1 else 0
      {
        var swapped;
        swapped, expected := CompareExchange(expected, Sending);
        if !swapped {
          break;
        }
        var restSize := |sendQueue|;
        if restSize == 0 {
          swapped, expected := CompareExchange(expected, NoneSending);
          if !swapped {
            continue;
          }
          break;
        }
        ok := PostBatch(Min(ONE_SEND_WSABUF_MAX, restSize), postOk);
        return;
      }
      ok := true;
    }

    method SendPacket(buffer: Option<Buffer>, postOk: bool) returns (ok: bool)
      requires Valid() && (buffer.Some? ==> buffer.value !in enqueued)
      modifies this, sendBufferStore
      ensures Valid()
      ensures buffer.None? ==> !ok && SendData() == old(SendData()) && IoData() == old(IoData())
      ensures buffer.Some? ==>
        var p := old(SendData()).(queue := old(sendQueue) + [buffer.value], enqueued := old(enqueued) + [buffer.value]);
        && SendData() == DoSendPump(p, postOk)
        && IoData() == DoSendLife(p, old(IoData()), postOk)
        && (!ok <==> owner == FailedPost && old(owner) != FailedPost)
        && (old(ioMode) == Sending ==> ok)
    {
      if buffer.None? {
        return false;
      }
      ghost var before := SendData();
      sendQueue, enqueued := sendQueue + [buffer.value], enqueued + [buffer.value];
      EnqueueRests(before, buffer.value, SendData());
      ok := DoSend(postOk);
    }

    method OnSendIoCompleted(postOk: bool) returns (ok: bool)
      requires Valid() && posted
      modifies this, sendBufferStore
      ensures Valid()
      ensures var p := Completed(old(SendData()));
        && SendData() == DoSendPump(p, postOk)
        && IoData() == DoSendLife(p, Decrease(old(IoData())), postOk)
        && (!ok <==> owner == FailedPost)
      ensures freed == old(freed) + old(sendBufferStore[..bufferCount])
    {
      ghost var before := SendData();
      CompletedRests(before);
      Complete();
      DecreaseIOCount();
      ok := DoSend(postOk);
    }

    /** Frees the batch and gives the send side back. */
    method Complete()
      requires 0 <= bufferCount <= sendBufferStore.Length
      modifies this
      ensures SendData() == Completed(old(SendData())) && IoData() == old(IoData())
    {
      posted := false;
      FreeStored();
      bufferCount := 0;
      ioMode, owner := NoneSending, NoOwner;
    }

    /** Frees the first `bufferCount` buffers of the store. */
    method FreeStored()
      requires 0 <= bufferCount <= sendBufferStore.Length
      modifies this`freed
      ensures freed == old(freed) + sendBufferStore[..bufferCount]
    {
      for i := 0 to bufferCount
        invariant freed == old(freed) + sendBufferStore[..i]
      {
        freed := freed + [sendBufferStore[i]];
      }
    }

    method OnDisconnected()
      requires Valid()
      modifies this
      ensures Valid() && SendData() == Disconnect(old(SendData()))
      ensures multiset(freed) == multiset(enqueued)
    {
      DisconnectRests(SendData());
      FreeAll();
    }

    /** Its two loops. */
    method FreeAll()
      requires 0 <= bufferCount <= sendBufferStore.Length
      modifies this
      ensures SendData() == Disconnect(old(SendData()))
    {
      disconnect := Disconnected(bufferCount);
      FreeStored();
      bufferCount := 0;
      DrainQueue();
    }

    /** Frees what is left in the queue. */
    method DrainQueue()
      modifies this`freed, this`sendQueue
      ensures sendQueue == [] && freed == old(freed + sendQueue)
    {
      ghost var i := 0;
      while |sendQueue| > 0
        invariant 0 <= i <= |old(sendQueue)| && sendQueue == old(sendQueue)[i..]
        invariant freed == old(freed) + old(sendQueue)[..i]
        decreases |sendQueue|
      {
        freed := freed + [sendQueue[0]];
        sendQueue, i := sendQueue[1..], i + 1;
      }
    }
  }

  lemma BatchInOrder(enqueued: seq<Buffer>, sent: seq<Buffer>, queue: seq<Buffer>, n: nat)
    requires n <= |queue| && InOrder(enqueued, sent, [], queue)
    ensures InOrder(enqueued, sent, queue[..n], queue[n..])
    ensures InOrder(enqueued, sent + queue[..n], [], queue[n..])
  {
    assert queue == queue[..n] + queue[n..];
  }

  lemma BatchBalanced(enqueued: seq<Buffer>, queue: seq<Buffer>, freed: seq<Buffer>, n: nat)
    requires n <= |queue| && Balanced(enqueued, queue, [], freed)
    ensures Balanced(enqueued, queue[n..], queue[..n], freed)
  {
    assert queue == queue[..n] + queue[n..];
  }

  lemma BatchFifo(p: Pump, ok: bool)
    requires Resting(p) && Intact(p) && p.ioMode == NoneSending && p.queue != []
    ensures DataInv(DoSendPump(p, ok), Idle)
  {
    var n := BatchSize(p.queue);
    LoadedUnsent(p, ok);
    FlattenSnoc(p.wire, p.queue[..n]);
    BatchInOrder(p.enqueued, Flatten(p.wire), p.queue, n);
  }

  lemma LoadedUnsent(p: Pump, ok: bool)
    requires |p.store| == ONE_SEND_WSABUF_MAX && p.bufferCount == 0
    requires p.ioMode == NoneSending && p.queue != [] && StageInv(DoSendPump(p, ok), Idle)
    ensures Unsent(DoSendPump(p, ok), Idle) == if ok then [] else p.queue[..BatchSize(p.queue)]
  {
    if !ok {
      var n := BatchSize(p.queue);
      assert (p.queue[..n] + p.store[n..])[..n] == p.queue[..n];
    }
  }

  lemma BatchBalance(p: Pump, ok: bool)
    requires Resting(p) && p.ioMode == NoneSending && p.queue != []
    ensures var q := DoSendPump(p, ok); Balanced(q.enqueued, q.queue, q.store[..q.bufferCount], q.freed)
  {
    var n := BatchSize(p.queue);
    assert DoSendPump(p, ok).store[..n] == p.queue[..n];
    assert p.store[..0] == [];
    BatchBalanced(p.enqueued, p.queue, p.freed, n);
  }

  lemma DoSendRests(p: Pump, ok: bool)
    requires Resting(p)
    ensures Resting(DoSendPump(p, ok))
  {
    if p.ioMode == NoneSending && p.queue != [] {
      BatchBalance(p, ok);
      if Intact(p) {
        BatchFifo(p, ok);
      }
    }
  }

  lemma CompletedRests(p: Pump)
    requires Resting(p) && p.posted
    ensures Resting(Completed(p))
  {
    assert p.store[..0] == [];
  }

  lemma EnqueueRests(p: Pump, b: Buffer, p': Pump)
    requires Resting(p) && p' == p.(queue := p.queue + [b], enqueued := p.enqueued + [b])
    ensures Resting(p')
  {
    if Intact(p) {
      EnqueueData(p, Idle, b, p');
    }
  }

  lemma DisconnectRests(p: Pump)
    requires Resting(p)
    ensures Resting(Disconnect(p)) && multiset(Disconnect(p).freed) == multiset(p.enqueued)
  {
    assert p.store[..0] == [];
  }
}
