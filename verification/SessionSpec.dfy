/** What a whole call of `DoSend`, `SendPacket` or `OnSendIoCompleted` amounts to when no other
    call overlaps it, and the proof that the step system run by one thread does just that. */
module SessionSpec {
  import opened Common
  import opened SessionSteps
  import opened SessionSends

  /** How many buffers the next batch takes. */
  function BatchSize(queue: seq<Buffer>): nat {
    Min(ONE_SEND_WSABUF_MAX, |queue|)
  }

  /** The send data with the next batch moved from the queue to the store. */
  function Loaded(p: Pump): Pump
    requires |p.store| == ONE_SEND_WSABUF_MAX
  {
    var n := BatchSize(p.queue);
    p.(queue := p.queue[n..], store := p.queue[..n] + p.store[n..], bufferCount := p.bufferCount + n, ioMode := Sending)
  }

  /** A whole `DoSend`; `ok` is the outcome of `WSASend`. */
  function DoSendPump(p: Pump, ok: bool): Pump
    requires |p.store| == ONE_SEND_WSABUF_MAX
  {
    if p.ioMode == Sending || p.queue == [] then p
    else if ok then
      Loaded(p).(posted := true, owner := Kernel, wire := p.wire + [p.queue[..BatchSize(p.queue)]])
    else Loaded(p).(owner := FailedPost)
  }

  function DoSendLife(p: Pump, l: Life, ok: bool): Life {
    if p.ioMode == Sending || p.queue == [] then l
    else if ok then l.(ioCount := l.ioCount + 1)
    else Decrease(l.(ioCount := l.ioCount + 1))
  }

  /** The send data once `OnSendIoCompleted` has freed the batch and given the send side back. */
  function Completed(p: Pump): Pump
    requires 0 <= p.bufferCount <= |p.store|
  {
    p.(posted := false, owner := NoOwner, ioMode := NoneSending, freed := p.freed + p.store[..p.bufferCount],
       bufferCount := 0)
  }

  /** A whole `OnDisconnected`: frees the stored buffers, then drains and frees the queue. */
  function Disconnect(p: Pump): Pump
    requires 0 <= p.bufferCount <= |p.store|
  {
    p.(freed := p.freed + p.store[..p.bufferCount] + p.queue, bufferCount := 0, queue := [],
       disconnect := Disconnected(p.bufferCount))
  }

  /** Every enqueued buffer is in exactly one place. */
  ghost predicate Balanced(enqueued: seq<Buffer>, queue: seq<Buffer>, held: seq<Buffer>, freed: seq<Buffer>) {
    multiset(enqueued) == multiset(queue) + multiset(held) + multiset(freed)
  }

  /** No thread is inside the send code or the teardown. */
  ghost predicate Resting(p: Pump) {
    && !p.owner.ByThread? && (p.ioMode == Sending <==> p.owner != NoOwner) && (p.posted <==> p.owner == Kernel)
    && !InTeardown(p) && RangeInv(p, Idle) && BatchSizes(p.wire) && (Intact(p) ==> DataInv(p, Idle))
    && Balanced(p.enqueued, p.queue, p.store[..p.bufferCount], p.freed)
  }

  // ---- The step system, with one thread running ----

  /** Thread t alone executes up to k statements of the send code. */
  ghost function Alone(s: State, t: nat, ok: bool, k: nat): State
    requires t < |s.threads|
    decreases k
  {
    if k == 0 || !InSendCode(s.threads[t]) || !InRange(s.pump, s.threads[t]) then s
    else Alone(Next(s, Run(t, ok)), t, ok, k - 1)
  }

  /** What one thread works on: its own position, the send data and the count. */
  datatype Solo = Solo(pump: Pump, life: Life, pc: Pc)

  /** The same on the thread's own view. */
  ghost function Local(c: Solo, t: nat, ok: bool, k: nat): Solo
    decreases k
  {
    if k == 0 || !InSendCode(c.pc) || !InRange(c.pump, c.pc) then c
    else
      var (p, pc) := SendStep(c.pump, t, c.pc, ok);
      Local(Solo(p, LifeStep(c.life, c.pc, ok), pc), t, ok, k - 1)
  }

  lemma {:induction false} AloneIsLocal(s: State, t: nat, ok: bool, k: nat)
    requires t < |s.threads|
    ensures var c := Local(Solo(s.pump, s.life, s.threads[t]), t, ok, k);
      Alone(s, t, ok, k) == State(c.pump, c.life, s.threads[t := c.pc])
    decreases k
  {
    if k > 0 && InSendCode(s.threads[t]) && InRange(s.pump, s.threads[t]) {
      AloneIsLocal(Next(s, Run(t, ok)), t, ok, k - 1);
    }
  }

  lemma Statement(p: Pump, l: Life, pc: Pc, t: nat, ok: bool, k: nat, p': Pump, l': Life, pc': Pc)
    requires k > 0 && InSendCode(pc) && InRange(p, pc)
    requires SendStep(p, t, pc, ok) == (p', pc') && LifeStep(l, pc, ok) == l'
    ensures Local(Solo(p, l, pc), t, ok, k) == Local(Solo(p', l', pc'), t, ok, k - 1)
  {
  }

  /** The send data once the fill loop at index i has run to its end n. */
  ghost function Filled(p: Pump, i: nat, n: nat): Pump
    requires i <= n <= |p.store| && n - i <= |p.queue|
  {
    p.(queue := p.queue[n - i..], store := p.store[..i] + p.queue[..n - i] + p.store[n..])
  }

  lemma FillNone(p: Pump, n: nat)
    requires n <= |p.store|
    ensures Filled(p, n, n) == p
  {
    assert p.queue[0..] == p.queue && p.store[..n] + p.queue[..0] + p.store[n..] == p.store;
  }

  lemma FillOne(p: Pump, i: nat, n: nat)
    requires i < n <= |p.store| && n - i <= |p.queue|
    ensures Filled(p.(store := p.store[i := p.queue[0]], queue := p.queue[1..]), i + 1, n) == Filled(p, i, n)
  {
    var store1, queue1 := p.store[i := p.queue[0]], p.queue[1..];
    assert queue1[n - (i + 1)..] == p.queue[n - i..];
    assert store1[..i + 1] + queue1[..n - (i + 1)] + store1[n..] == p.store[..i] + p.queue[..n - i] + p.store[n..];
  }

  lemma {:induction false} FillLoop(p: Pump, l: Life, t: nat, ok: bool, k: nat, i: nat, n: nat)
    requires i <= n <= |p.store| && n - i <= |p.queue| && n - i < k
    ensures Local(Solo(p, l, Fill(i, n)), t, ok, k)
         == Local(Solo(Filled(p, i, n), l, AddCount(n)), t, ok, k - (n - i) - 1)
    decreases n - i
  {
    if i == n {
      FillNone(p, n);
      Statement(p, l, Fill(i, n), t, ok, k, p, l, AddCount(n));
    } else {
      var p1 := p.(store := p.store[i := p.queue[0]], queue := p.queue[1..]);
      Statement(p, l, Fill(i, n), t, ok, k, p1, l, Fill(i + 1, n));
      FillOne(p, i, n);
      FillLoop(p1, l, t, ok, k - 1, i + 1, n);
    }
  }

  // ---- DoSend is what one thread does alone ----

  /** Two passes, when there is nothing to send. */
  lemma NothingToSend(p: Pump, l: Life, t: nat, ok: bool, k: nat)
    requires k >= 6 && p.ioMode == NoneSending && p.queue == [] && p.owner == NoOwner
    ensures Local(Solo(p, l, Acquire(NoneSending)), t, ok, k) == Solo(p, l, Returned(true))
  {
    var p1 := p.(ioMode := Sending, owner := ByThread(t));
    Statement(p, l, Acquire(NoneSending), t, ok, k, p1, l, ReadSize(NoneSending));
    Statement(p1, l, ReadSize(NoneSending), t, ok, k - 1, p1, l, EmptyRelease(NoneSending));
    Statement(p1, l, EmptyRelease(NoneSending), t, ok, k - 2, p1, l, Acquire(Sending));
    SecondPass(p1, l, t, ok, k - 3);
    assert p1.(ioMode := NoneSending, owner := NoOwner) == p;
  }

  lemma SecondPass(p: Pump, l: Life, t: nat, ok: bool, k: nat)
    requires k >= 3 && p.ioMode == Sending && p.queue == [] && p.owner == ByThread(t)
    ensures Local(Solo(p, l, Acquire(Sending)), t, ok, k)
         == Solo(p.(ioMode := NoneSending, owner := NoOwner), l, Returned(true))
  {
    Statement(p, l, Acquire(Sending), t, ok, k, p, l, ReadSize(Sending));
    Statement(p, l, ReadSize(Sending), t, ok, k - 1, p, l, EmptyRelease(Sending));
    var p1 := p.(ioMode := NoneSending, owner := NoOwner);
    Statement(p, l, EmptyRelease(Sending), t, ok, k - 2, p1, l, Returned(true));
  }

  /** From the acquisition to the post: the batch is loaded. */
  lemma LoadBatch(p: Pump, l: Life, t: nat, ok: bool, k: nat, n: nat)
    requires p.ioMode == NoneSending && p.queue != [] && |p.store| == ONE_SEND_WSABUF_MAX
    requires n == BatchSize(p.queue) && n + 4 <= k
    ensures Local(Solo(p, l, Acquire(NoneSending)), t, ok, k)
         == Local(Solo(Loaded(p).(owner := ByThread(t)), l, CountSend(n)), t, ok, k - n - 4)
  {
    var p1 := p.(ioMode := Sending, owner := ByThread(t));
    Statement(p, l, Acquire(NoneSending), t, ok, k, p1, l, ReadSize(NoneSending));
    Statement(p1, l, ReadSize(NoneSending), t, ok, k - 1, p1, l, Fill(0, n));
    TakeBatch(p1, l, t, ok, k - 2, n);
  }

  /** The fill loop and the addition to `bufferCount`. */
  lemma TakeBatch(p: Pump, l: Life, t: nat, ok: bool, k: nat, n: nat)
    requires n <= |p.store| && n <= |p.queue| && n + 2 <= k
    ensures Local(Solo(p, l, Fill(0, n)), t, ok, k)
         == Local(Solo(p.(queue := p.queue[n..], store := p.queue[..n] + p.store[n..],
                          bufferCount := p.bufferCount + n), l, CountSend(n)), t, ok, k - n - 2)
  {
    FillLoop(p, l, t, ok, k, 0, n);
    var filled := Filled(p, 0, n);
    assert p.store[..0] + p.queue[..n] == p.queue[..n];
    Statement(filled, l, AddCount(n), t, ok, k - n - 1, filled.(bufferCount := p.bufferCount + n), l, CountSend(n));
  }

  /** The post itself, and the way out. */
  lemma PostLoaded(p: Pump, l: Life, t: nat, ok: bool, k: nat, n: nat)
    requires k >= 3 && n <= |p.store|
    ensures Local(Solo(p, l, CountSend(n)), t, ok, k) == Solo(
      if ok then p.(posted := true, owner := Kernel, wire := p.wire + [p.store[..n]]) else p.(owner := FailedPost),
      if ok then l.(ioCount := l.ioCount + 1) else Decrease(l.(ioCount := l.ioCount + 1)),
      Returned(ok))
  {
    var l1 := l.(ioCount := l.ioCount + 1);
    Statement(p, l, CountSend(n), t, ok, k, p, l1, PostSend(n));
    var (p2, pc2) := SendStep(p, t, PostSend(n), ok);
    Statement(p, l1, PostSend(n), t, ok, k - 1, p2, l1, pc2);
    if !ok {
      Statement(p2, l1, SendFailed, t, ok, k - 2, p2, Decrease(l1), Returned(false));
    }
  }

  lemma DoSendLocal(p: Pump, l: Life, t: nat, ok: bool, k: nat)
    requires |p.store| == ONE_SEND_WSABUF_MAX && (p.ioMode == NoneSending ==> p.owner == NoOwner) && k >= 30
    ensures Local(Solo(p, l, Acquire(NoneSending)), t, ok, k)
         == Solo(DoSendPump(p, ok), DoSendLife(p, l, ok), Returned(ok || p.ioMode == Sending || p.queue == []))
  {
    if p.ioMode == Sending {
      Statement(p, l, Acquire(NoneSending), t, ok, k, p, l, Returned(true));
    } else if p.queue == [] {
      NothingToSend(p, l, t, ok, k);
    } else {
      var n := BatchSize(p.queue);
      var loaded := Loaded(p).(owner := ByThread(t));
      LoadBatch(p, l, t, ok, k, n);
      PostLoaded(loaded, l, t, ok, k - n - 4, n);
      assert loaded.store[..n] == p.queue[..n];
    }
  }

  /** A `DoSend` that runs without interference is exactly its specification, within the 30
      statements any thread needs. */
  lemma DoSendAlone(s: State, t: nat, ok: bool, k: nat)
    requires |s.pump.store| == ONE_SEND_WSABUF_MAX && (s.pump.ioMode == NoneSending ==> s.pump.owner == NoOwner)
    requires k >= 30 && t < |s.threads| && s.threads[t] == Acquire(NoneSending)
    ensures var returned := Returned(ok || s.pump.ioMode == Sending || s.pump.queue == []);
      Alone(s, t, ok, k) == State(DoSendPump(s.pump, ok), DoSendLife(s.pump, s.life, ok), s.threads[t := returned])
  {
    AloneIsLocal(s, t, ok, k);
    DoSendLocal(s.pump, s.life, t, ok, k);
  }

  // ---- OnSendIoCompleted is what one thread does alone ----

  lemma FreeFirst(freed: seq<Buffer>, store: seq<Buffer>, i: nat, n: nat)
    requires i < n <= |store|
    ensures freed + store[i..n] == freed + [store[i]] + store[i + 1..n]
  {
  }

  lemma {:induction false} FreeLoop(p: Pump, l: Life, t: nat, ok: bool, k: nat, i: nat)
    requires i <= p.bufferCount <= |p.store| && 2 * (p.bufferCount - i) < k
    ensures Local(Solo(p, l, FreeStore(i)), t, ok, k)
         == Local(Solo(p.(freed := p.freed + p.store[i..p.bufferCount]), l, ResetCount),
                  t, ok, k - 2 * (p.bufferCount - i) - 1)
    decreases p.bufferCount - i
  {
    if i == p.bufferCount {
      assert p.freed + p.store[i..i] == p.freed;
      Statement(p, l, FreeStore(i), t, ok, k, p, l, ResetCount);
    } else {
      var p1 := p.(freed := p.freed + [p.store[i]]);
      Statement(p, l, FreeStore(i), t, ok, k, p, l, FreePlace(i));
      Statement(p, l, FreePlace(i), t, ok, k - 1, p1, l, FreeStore(i + 1));
      FreeFirst(p.freed, p.store, i, p.bufferCount);
      FreeLoop(p1, l, t, ok, k - 2, i + 1);
    }
  }

  lemma GiveBack(p: Pump, l: Life, t: nat, ok: bool, k: nat)
    requires k >= 3
    ensures Local(Solo(p, l, ResetCount), t, ok, k)
         == Local(Solo(p.(bufferCount := 0, ioMode := NoneSending, owner := NoOwner), Decrease(l),
                       Acquire(NoneSending)), t, ok, k - 3)
  {
    var p1 := p.(bufferCount := 0);
    Statement(p, l, ResetCount, t, ok, k, p1, l, ReleaseMode);
    var p2 := p1.(ioMode := NoneSending, owner := NoOwner);
    Statement(p1, l, ReleaseMode, t, ok, k - 1, p2, l, RetireSend);
    Statement(p2, l, RetireSend, t, ok, k - 2, p2, Decrease(l), Acquire(NoneSending));
  }

  /** An `OnSendIoCompleted` that runs without interference is exactly its specification, and returns false only
      when it posts the next batch in vain. */
  lemma CompletionAlone(s: State, t: nat, ok: bool, k: nat)
    requires k >= 74 && Enabled(s, SendCompletion(t, true))
    requires 0 <= s.pump.bufferCount <= |s.pump.store| == ONE_SEND_WSABUF_MAX
    ensures var p := Completed(s.pump);
      Alone(Next(s, SendCompletion(t, true)), t, ok, k)
      == State(DoSendPump(p, ok), DoSendLife(p, Decrease(s.life), ok),
               s.threads[t := Returned(ok || s.pump.queue == [])])
  {
    var s1 := Next(s, SendCompletion(t, true));
    AloneIsLocal(s1, t, ok, k);
    CompletionLocal(s1.pump, s.life, t, ok, k);
    assert Completed(s1.pump) == Completed(s.pump);
    var returned := Returned(ok || s.pump.queue == []);
    assert s1.threads[t := returned] == s.threads[t := returned];
  }

  lemma CompletionLocal(p: Pump, l: Life, t: nat, ok: bool, k: nat)
    requires k >= 74 && 0 <= p.bufferCount <= |p.store| == ONE_SEND_WSABUF_MAX && !p.posted
    ensures var c := Completed(p);
      Local(Solo(p, l, FreeStore(0)), t, ok, k)
      == Solo(DoSendPump(c, ok), DoSendLife(c, Decrease(l), ok), Returned(ok || p.queue == []))
  {
    FreeLoop(p, l, t, ok, k, 0);
    assert p.store[0..p.bufferCount] == p.store[..p.bufferCount];
    var k1 := k - 2 * p.bufferCount - 1;
    GiveBack(p.(freed := p.freed + p.store[..p.bufferCount]), l, t, ok, k1);
    DoSendLocal(Completed(p), Decrease(l), t, ok, k1 - 3);
  }

  // ---- OnDisconnected is what the release thread does alone ----

  /** The release thread alone executes up to k statements of `OnDisconnected`. */
  ghost function TornDown(p: Pump, k: nat): Pump
    decreases k
  {
    if k == 0 || !CanDisconnect(p) then p else TornDown(Disconnecting(p), k - 1)
  }

  lemma {:induction false} TeardownFrees(p: Pump, i: nat, k: nat)
    requires 0 <= p.bufferCount <= |p.store| && p.disconnect == FreeingStore(i) && i <= p.bufferCount
    requires k > 2 * (p.bufferCount - i)
    ensures var p' := p.(freed := p.freed + p.store[i..p.bufferCount], disconnect := ResettingCount(p.bufferCount));
      TornDown(p, k) == TornDown(p', k - 2 * (p.bufferCount - i) - 1)
    decreases p.bufferCount - i
  {
    if i == p.bufferCount {
      assert p.freed + p.store[i..i] == p.freed;
    } else {
      FreeFirst(p.freed, p.store, i, p.bufferCount);
      TeardownFrees(Disconnecting(Disconnecting(p)), i + 1, k - 2);
    }
  }

  lemma {:induction false} TeardownDrains(p: Pump, k: nat)
    requires p.bufferCount == 0 && p.disconnect.DrainingQueue? && k > |p.queue|
    ensures TornDown(p, k) == p.(freed := p.freed + p.queue, queue := [], disconnect := Disconnected(p.disconnect.i))
    decreases |p.queue|
  {
    if p.queue == [] {
      assert p.freed + p.queue == p.freed;
    } else {
      TeardownDrains(Disconnecting(p), k - 1);
      assert p.freed + [p.queue[0]] + p.queue[1..] == p.freed + p.queue;
    }
  }

  /** An `OnDisconnected` that runs without interference is exactly its specification. */
  lemma TeardownAlone(s: State, k: nat)
    requires Enabled(s, Erase) && 0 <= s.pump.bufferCount <= |s.pump.store|
    requires k >= 2 * s.pump.bufferCount + |s.pump.queue| + 3
    ensures TornDown(Next(s, Erase).pump, k) == Disconnect(s.pump)
  {
    var p := Next(s, Erase).pump;
    TeardownFrees(p, 0, k);
    assert p.store[0..p.bufferCount] == p.store[..p.bufferCount];
    var freed := p.(freed := p.freed + p.store[..p.bufferCount], disconnect := ResettingCount(p.bufferCount));
    var k1 := k - 2 * p.bufferCount - 1;
    assert TornDown(freed, k1) == TornDown(Disconnecting(freed), k1 - 1);
    TeardownDrains(Disconnecting(freed), k1 - 1);
  }

  // ---- Progress, when calls do not overlap and posts succeed ----

  /** One whole call. */
  datatype Call = SendCall(b: Buffer) | CompletionCall

  ghost predicate CallAllowed(p: Pump, c: Call) {
    match c
    case SendCall(b) => b !in p.enqueued
    case CompletionCall => p.posted
  }

  function CallPump(p: Pump, c: Call): Pump
    requires 0 <= p.bufferCount <= |p.store| == ONE_SEND_WSABUF_MAX
  {
    match c
    case SendCall(b) => DoSendPump(p.(queue := p.queue + [b], enqueued := p.enqueued + [b]), true)
    case CompletionCall => DoSendPump(Completed(p), true)
  }

  ghost predicate CallAt(pumps: seq<Pump>, calls: seq<Call>, i: nat)
    requires i < |calls| && |pumps| == |calls| + 1
  {
    && 0 <= pumps[i].bufferCount <= |pumps[i].store| == ONE_SEND_WSABUF_MAX
    && CallAllowed(pumps[i], calls[i]) && pumps[i + 1] == CallPump(pumps[i], calls[i])
  }

  /** Between calls: either a send is posted, or nothing waits at all. */
  ghost predicate Pumping(p: Pump) {
    && 0 <= p.bufferCount <= |p.store| == ONE_SEND_WSABUF_MAX
    && (if p.posted then p.ioMode == Sending && p.owner == Kernel
        else p.ioMode == NoneSending && p.owner == NoOwner && p.queue == [] && p.bufferCount == 0)
  }

  /** A non-empty queue implies a posted send, after every call of every run of whole calls. */
  lemma {:induction false} NothingWaitsUnposted(pumps: seq<Pump>, calls: seq<Call>, k: nat)
    requires |pumps| == |calls| + 1 && k < |pumps| && Pumping(pumps[0])
    requires forall i :: 0 <= i < |calls| ==> CallAt(pumps, calls, i)
    ensures Pumping(pumps[k])
    ensures pumps[k].queue != [] ==> pumps[k].posted
  {
    if k > 0 {
      NothingWaitsUnposted(pumps, calls, k - 1);
      assert CallAt(pumps, calls, k - 1);
      CallKeepsPumping(pumps[k - 1], calls[k - 1]);
    }
  }

  lemma CallKeepsPumping(p: Pump, c: Call)
    requires Pumping(p) && CallAllowed(p, c)
    ensures Pumping(CallPump(p, c))
  {
  }

  function CeilDiv(a: nat, b: nat): nat
    requires b > 0
  {
    (a + b - 1) / b
  }

  /** The send data after k completions and no new sends. */
  function AfterCompletions(p: Pump, k: nat): Pump
    requires 0 <= p.bufferCount <= |p.store| == ONE_SEND_WSABUF_MAX
    decreases k
  {
    if k == 0 then p
    else
      var p' := CallPump(p, CompletionCall);
      if 0 <= p'.bufferCount <= |p'.store| == ONE_SEND_WSABUF_MAX then AfterCompletions(p', k - 1) else p'
  }

  /** The first of k completions. */
  lemma CompletionNext(p: Pump, k: nat) returns (p1: Pump)
    requires Pumping(p) && p.posted && 0 < k <= CeilDiv(|p.queue|, ONE_SEND_WSABUF_MAX)
    ensures Pumping(p1) && p1.posted && p1.queue == p.queue[BatchSize(p.queue)..]
    ensures k - 1 <= CeilDiv(|p1.queue|, ONE_SEND_WSABUF_MAX)
    ensures AfterCompletions(p, k) == AfterCompletions(p1, k - 1)
  {
    assert p.queue != [];
    p1 := CallPump(p, CompletionCall);
    NextBatch(p, p1);
  }

  /** With q buffers queued behind a posted send, each completion posts the next 20 of them:
      exactly ceil(q / 20) completions empty the queue, and every one leaves a send posted. */
  lemma {:induction false} CompletionsDrain(p: Pump, k: nat)
    requires Pumping(p) && p.posted && k <= CeilDiv(|p.queue|, ONE_SEND_WSABUF_MAX)
    ensures var p' := AfterCompletions(p, k);
      && Pumping(p') && p'.posted
      && p'.queue == p.queue[Min(ONE_SEND_WSABUF_MAX * k, |p.queue|)..]
    decreases k
  {
    if k == 0 {
      assert p.queue[0..] == p.queue;
    } else {
      var p1 := CompletionNext(p, k);
      CompletionsDrain(p1, k - 1);
      DropBatches(p.queue, p1.queue, k);
    }
  }

  /** Completions batch what is queued in queue order. */
  lemma {:induction false} CompletionsInOrder(p: Pump, k: nat)
    requires Pumping(p) && p.posted && k <= CeilDiv(|p.queue|, ONE_SEND_WSABUF_MAX)
    ensures var p' := AfterCompletions(p, k);
      Flatten(p'.wire) + p'.queue == Flatten(p.wire) + p.queue
    decreases k
  {
    if k > 0 {
      var p1 := CallPump(p, CompletionCall);
      NextBatch(p, p1);
      CompletionsInOrder(p1, k - 1);
    }
  }

  lemma BatchesAddUp(q: nat, k: nat)
    requires k > 0
    ensures var n := Min(ONE_SEND_WSABUF_MAX, q);
      n + Min(ONE_SEND_WSABUF_MAX * (k - 1), q - n) == Min(ONE_SEND_WSABUF_MAX * k, q)
  {
  }

  lemma DropAgain(s: seq<Buffer>, m: nat, n: nat)
    requires m + n <= |s|
    ensures s[m..][n..] == s[m + n..]
  {
  }

  lemma DropBatches(q: seq<Buffer>, q1: seq<Buffer>, k: nat)
    requires k > 0 && q1 == q[BatchSize(q)..]
    ensures q1[Min(ONE_SEND_WSABUF_MAX * (k - 1), |q1|)..] == q[Min(ONE_SEND_WSABUF_MAX * k, |q|)..]
  {
    DropAgain(q, BatchSize(q), Min(ONE_SEND_WSABUF_MAX * (k - 1), |q1|));
    BatchesAddUp(|q|, k);
  }

  lemma NextBatch(p: Pump, p1: Pump)
    requires Pumping(p) && p.posted && p.queue != [] && p1 == CallPump(p, CompletionCall)
    ensures Pumping(p1) && p1.posted && p1.queue == p.queue[BatchSize(p.queue)..]
    ensures Flatten(p1.wire) + p1.queue == Flatten(p.wire) + p.queue
    ensures CeilDiv(|p1.queue|, ONE_SEND_WSABUF_MAX) == CeilDiv(|p.queue|, ONE_SEND_WSABUF_MAX) - 1
  {
    var n := BatchSize(p.queue);
    FlattenSnoc(p.wire, p.queue[..n]);
    assert p.queue == p.queue[..n] + p.queue[n..];
  }

  /** One completion more returns `ioMode` to NONE, with nothing queued, stored or posted. */
  lemma CompletionsStop(p: Pump)
    requires Pumping(p) && p.posted
    ensures var p' := AfterCompletions(p, CeilDiv(|p.queue|, ONE_SEND_WSABUF_MAX) + 1);
      && p'.ioMode == NoneSending && p'.queue == [] && p'.bufferCount == 0 && !p'.posted
      && Flatten(p'.wire) == Flatten(p.wire) + p.queue
  {
    var c := CeilDiv(|p.queue|, ONE_SEND_WSABUF_MAX);
    CompletionsDrain(p, c);
    CompletionsInOrder(p, c);
    OneMore(p, c);
    var last := AfterCompletions(p, c);
    assert last.queue == [];
    assert AfterCompletions(p, c + 1) == CallPump(last, CompletionCall);
    assert Flatten(last.wire) + [] == Flatten(last.wire);
  }

  lemma {:induction false} OneMore(p: Pump, k: nat)
    requires Pumping(p) && p.posted && k <= CeilDiv(|p.queue|, ONE_SEND_WSABUF_MAX)
    ensures Pumping(AfterCompletions(p, k))
    ensures AfterCompletions(p, k + 1) == CallPump(AfterCompletions(p, k), CompletionCall)
    decreases k
  {
    CallKeepsPumping(p, CompletionCall);
    if k > 0 {
      NextBatch(p, CallPump(p, CompletionCall));
      OneMore(CallPump(p, CompletionCall), k - 1);
    }
  }
}
