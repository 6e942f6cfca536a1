/** The send pump under every interleaving: one owner of `ioMode`, and first-in first-out batches
    until a teardown drains the queue. What a teardown does to the buffers is in SessionTeardown.dfy. */
module SessionSends {
  import opened Common
  import opened SessionSteps

  /** A thread that set `ioMode` to Sending and has not handed it on. The second pass of
      `DoSend` enters its first compare-and-swap with `expected` still at Sending: it owns already. */
  predicate Owns(pc: Pc) {
    match pc
    case Acquire(e) => e == Sending
    case ReadSize(_) | EmptyRelease(_) | Fill(_, _) | AddCount(_) | CountSend(_) | PostSend(_)
      | FreeStore(_) | FreePlace(_) | ResetCount | ReleaseMode => true
    case _ => false
  }

  ghost predicate OwnerInv(p: Pump, threads: seq<Pc>) {
    && (p.ioMode == Sending <==> p.owner != NoOwner)
    && (p.posted <==> p.owner == Kernel)
    && (p.owner.ByThread? ==> p.owner.t < |threads|)
    && forall t :: 0 <= t < |threads| ==> (Owns(threads[t]) <==> p.owner == ByThread(t))
  }

  /** The pc of the owning thread; Idle when the owner is no thread. */
  ghost function OwnerPc(p: Pump, threads: seq<Pc>): Pc {
    if p.owner.ByThread? && p.owner.t < |threads| then threads[p.owner.t] else Idle
  }

  /** What the owner's position says about the bounds of the store, in every run. */
  ghost predicate RangeInv(p: Pump, pc: Pc) {
    && |p.store| == ONE_SEND_WSABUF_MAX
    && 0 <= p.bufferCount <= ONE_SEND_WSABUF_MAX
    && match pc
       case Idle => p.owner == NoOwner ==> p.bufferCount == 0
       case Fill(i, n) => p.bufferCount == 0 && i <= n && 1 <= n <= ONE_SEND_WSABUF_MAX
       case AddCount(n) => p.bufferCount == 0 && 1 <= n <= ONE_SEND_WSABUF_MAX
       case CountSend(n) => 1 <= n <= ONE_SEND_WSABUF_MAX
       case PostSend(n) => 1 <= n <= ONE_SEND_WSABUF_MAX
       case FreeStore(i) => i <= ONE_SEND_WSABUF_MAX
       case FreePlace(i) => i < ONE_SEND_WSABUF_MAX
       case ResetCount => true
       case _ => p.bufferCount == 0
  }

  /** No teardown has reset the count or drained the queue. */
  predicate Intact(p: Pump) {
    !p.disconnect.DrainingQueue? && !p.disconnect.Disconnected?
  }

  /** What the owner's position says about the count and the queue while they are intact. */
  ghost predicate StageInv(p: Pump, pc: Pc) {
    && RangeInv(p, pc)
    && match pc
       case Fill(i, n) => n - i <= |p.queue|
       case CountSend(n) => n == p.bufferCount
       case PostSend(n) => n == p.bufferCount
       case _ => true
  }

  /** The buffers taken from the queue that no successful `WSASend` has received. */
  ghost function Unsent(p: Pump, pc: Pc): seq<Buffer>
    requires StageInv(p, pc)
  {
    match pc
    case Idle => if p.owner == FailedPost then p.store[..p.bufferCount] else []
    case Fill(i, _) => p.store[..i]
    case AddCount(n) => p.store[..n]
    case CountSend(n) => p.store[..n]
    case PostSend(n) => p.store[..n]
    case _ => []
  }

  /** Batches, then what is still to be batched, in the order the buffers were enqueued. */
  ghost predicate InOrder(enqueued: seq<Buffer>, sent: seq<Buffer>, unsent: seq<Buffer>, queue: seq<Buffer>) {
    sent + unsent + queue == enqueued
  }

  ghost predicate BatchSizes(wire: seq<seq<Buffer>>) {
    forall k :: 0 <= k < |wire| ==> 1 <= |wire[k]| <= ONE_SEND_WSABUF_MAX
  }

  ghost predicate FifoInv(p: Pump, pc: Pc)
    requires StageInv(p, pc)
  {
    InOrder(p.enqueued, Flatten(p.wire), Unsent(p, pc), p.queue)
  }

  ghost predicate Distinct(s: seq<Buffer>) {
    forall i, j :: 0 <= i < j < |s| ==> s[i] != s[j]
  }

  ghost predicate DataInv(p: Pump, pc: Pc) {
    StageInv(p, pc) && FifoInv(p, pc)
  }

  /** What no teardown touches. */
  ghost predicate SafeInv(s: State) {
    && OwnerInv(s.pump, s.threads)
    && RangeInv(s.pump, OwnerPc(s.pump, s.threads))
    && BatchSizes(s.pump.wire)
    && (s.pump.disconnect.FreeingPlace? ==> s.pump.disconnect.i < ONE_SEND_WSABUF_MAX)
  }

  ghost predicate SendInv(s: State) {
    SafeInv(s) && (Intact(s.pump) ==> DataInv(s.pump, OwnerPc(s.pump, s.threads)))
  }

  // ---- The owner's own statements ----

  /** The owner's pc after its step: Idle once it is the owner no more. */
  ghost function PcAfter(p: Pump, t: nat, pc: Pc): Pc {
    if p.owner == ByThread(t) then pc else Idle
  }

  lemma OwnerRange(p: Pump, t: nat, pc: Pc, ok: bool)
    requires Owns(pc) && p.owner == ByThread(t) && p.ioMode == Sending && RangeInv(p, pc)
    ensures InSendCode(pc) && InRange(p, pc)
    ensures var (p', pc') := SendStep(p, t, pc, ok); RangeInv(p', PcAfter(p', t, pc'))
  {
  }

  lemma OwnerStage(p: Pump, t: nat, pc: Pc, ok: bool)
    requires Owns(pc) && p.owner == ByThread(t) && p.ioMode == Sending && StageInv(p, pc)
    ensures InSendCode(pc) && InRange(p, pc)
    ensures var (p', pc') := SendStep(p, t, pc, ok); StageInv(p', PcAfter(p', t, pc'))
  {
    OwnerRange(p, t, pc, ok);
  }

  /** A step that takes no buffer from the queue and sends none keeps the order. */
  lemma SameBuffers(p: Pump, pc: Pc, p': Pump, pc': Pc)
    requires DataInv(p, pc) && StageInv(p', pc') && Unsent(p', pc') == Unsent(p, pc)
    requires p'.queue == p.queue && p'.wire == p.wire && p'.enqueued == p.enqueued
    ensures DataInv(p', pc')
  {
  }

  lemma TakeInOrder(enqueued: seq<Buffer>, sent: seq<Buffer>, unsent: seq<Buffer>, queue: seq<Buffer>)
    requires queue != [] && InOrder(enqueued, sent, unsent, queue)
    ensures InOrder(enqueued, sent, unsent + [queue[0]], queue[1..])
  {
  }

  lemma TakeFromQueue(p: Pump, i: nat, n: nat, p': Pump)
    requires DataInv(p, Fill(i, n)) && i < n && p.queue != []
    requires p' == p.(store := p.store[i := p.queue[0]], queue := p.queue[1..])
    ensures DataInv(p', Fill(i + 1, n))
  {
    assert p'.store[..i + 1] == p.store[..i] + [p.queue[0]];
    TakeInOrder(p.enqueued, Flatten(p.wire), p.store[..i], p.queue);
  }

  lemma PostBatch(p: Pump, n: nat, p': Pump)
    requires DataInv(p, PostSend(n))
    requires p' == p.(posted := true, owner := Kernel, wire := p.wire + [p.store[..n]])
    ensures DataInv(p', Idle)
  {
    FlattenSnoc(p.wire, p.store[..n]);
  }

  /** The owner's steps that touch neither the queue nor the batches. */
  predicate Quiet(pc: Pc) {
    Owns(pc) && !pc.Fill? && !pc.PostSend?
  }

  lemma QuietStep(p: Pump, t: nat, pc: Pc, ok: bool)
    requires Quiet(pc) && p.owner == ByThread(t) && p.ioMode == Sending && DataInv(p, pc)
    ensures InSendCode(pc) && InRange(p, pc)
    ensures var (p', pc') := SendStep(p, t, pc, ok); DataInv(p', PcAfter(p', t, pc'))
  {
    OwnerStage(p, t, pc, ok);
    var (p', pc') := SendStep(p, t, pc, ok);
    SameBuffers(p, pc, p', PcAfter(p', t, pc'));
  }

  lemma FillStep(p: Pump, t: nat, i: nat, n: nat)
    requires p.owner == ByThread(t) && DataInv(p, Fill(i, n))
    ensures InRange(p, Fill(i, n))
    ensures var (p', pc') := SendStep(p, t, Fill(i, n), true); DataInv(p', PcAfter(p', t, pc'))
  {
    if i < n {
      TakeFromQueue(p, i, n, SendStep(p, t, Fill(i, n), true).0);
    } else {
      SameBuffers(p, Fill(i, n), p, AddCount(n));
    }
  }

  lemma PostStep(p: Pump, t: nat, n: nat, ok: bool)
    requires p.owner == ByThread(t) && DataInv(p, PostSend(n))
    ensures InRange(p, PostSend(n))
    ensures var (p', pc') := SendStep(p, t, PostSend(n), ok); DataInv(p', PcAfter(p', t, pc'))
  {
    var p' := SendStep(p, t, PostSend(n), ok).0;
    if ok {
      PostBatch(p, n, p');
    } else {
      SameBuffers(p, PostSend(n), p', Idle);
    }
  }

  lemma OwnerStep(p: Pump, t: nat, pc: Pc, ok: bool)
    requires Owns(pc) && p.owner == ByThread(t) && p.ioMode == Sending && DataInv(p, pc)
    ensures InSendCode(pc) && InRange(p, pc)
    ensures var (p', pc') := SendStep(p, t, pc, ok); DataInv(p', PcAfter(p', t, pc'))
  {
    match pc
    case Fill(i, n) => FillStep(p, t, i, n);
    case PostSend(n) => PostStep(p, t, n, ok);
    case _ => QuietStep(p, t, pc, ok);
  }

  // ---- One step of the whole system ----

  /** The owner changes hands only through the thread that acts. */
  ghost predicate Free(o: Owner, t: nat) {
    o.ByThread? ==> o.t == t
  }

  lemma OwnerMove(p: Pump, threads: seq<Pc>, p': Pump, t: nat, pc': Pc)
    requires OwnerInv(p, threads) && t < |threads|
    requires p'.ioMode == Sending <==> p'.owner != NoOwner
    requires p'.posted <==> p'.owner == Kernel
    requires Owns(pc') <==> p'.owner == ByThread(t)
    requires p'.owner == p.owner || (Free(p.owner, t) && Free(p'.owner, t))
    ensures OwnerInv(p', threads[t := pc'])
    ensures OwnerPc(p', threads[t := pc'])
         == if p'.owner == ByThread(t) then pc' else if p'.owner == p.owner then OwnerPc(p, threads) else Idle
  {
  }

  lemma OwnerSendStep(p: Pump, threads: seq<Pc>, t: nat, ok: bool)
    requires OwnerInv(p, threads) && t < |threads| && InSendCode(threads[t]) && InRange(p, threads[t])
    ensures var (p', pc') := SendStep(p, t, threads[t], ok);
            && OwnerInv(p', threads[t := pc'])
            && OwnerPc(p', threads[t := pc'])
            == if p'.owner == ByThread(t) then pc' else if p'.owner == p.owner then OwnerPc(p, threads) else Idle
  {
    var (p', pc') := SendStep(p, t, threads[t], ok);
    OwnerMove(p, threads, p', t, pc');
  }

  /** A statement of a thread that does not own: only a first compare-and-swap can change the pump. */
  lemma VisitorStep(p: Pump, t: nat, pc: Pc, ok: bool)
    requires InSendCode(pc) && !Owns(pc) && InRange(p, pc)
    ensures var (p', pc') := SendStep(p, t, pc, ok);
            if pc == Acquire(NoneSending) && p.ioMode == NoneSending
            then p' == p.(ioMode := Sending, owner := ByThread(t)) && pc' == ReadSize(NoneSending)
            else p' == p
  {
  }

  lemma AcquireData(p: Pump, t: nat, p': Pump)
    requires p.owner == NoOwner && DataInv(p, Idle) && p' == p.(ioMode := Sending, owner := ByThread(t))
    ensures DataInv(p', ReadSize(NoneSending))
  {
    SameBuffers(p, Idle, p', ReadSize(NoneSending));
  }

  lemma EnqueueInOrder(
      enqueued: seq<Buffer>, sent: seq<Buffer>, unsent: seq<Buffer>, queue: seq<Buffer>, b: Buffer)
    requires InOrder(enqueued, sent, unsent, queue)
    ensures InOrder(enqueued + [b], sent, unsent, queue + [b])
  {
  }

  lemma EnqueueData(p: Pump, pc: Pc, b: Buffer, p': Pump)
    requires DataInv(p, pc) && p' == p.(queue := p.queue + [b], enqueued := p.enqueued + [b])
    ensures DataInv(p', pc)
  {
    EnqueueInOrder(p.enqueued, Flatten(p.wire), Unsent(p, pc), p.queue, b);
  }

  lemma CompletionData(p: Pump, t: nat, ok: bool, p': Pump)
    requires p.owner == Kernel && DataInv(p, Idle)
    requires p' == p.(posted := false, owner := if ok then ByThread(t) else FailedCompletion)
    ensures DataInv(p', if ok then FreeStore(0) else Idle)
  {
    SameBuffers(p, Idle, p', if ok then FreeStore(0) else Idle);
  }

  lemma TeardownData(p: Pump, pc: Pc)
    requires CanDisconnect(p) && DataInv(p, pc) && Intact(p)
    ensures Intact(Disconnecting(p)) ==> DataInv(Disconnecting(p), pc)
  {
    if Intact(Disconnecting(p)) {
      SameBuffers(p, pc, Disconnecting(p), pc);
    }
  }

  /** The send data after a statement of thread `t` inside the send code. */
  lemma SendStepData(p: Pump, threads: seq<Pc>, t: nat, ok: bool)
    requires OwnerInv(p, threads) && DataInv(p, OwnerPc(p, threads))
    requires t < |threads| && InSendCode(threads[t]) && InRange(p, threads[t])
    ensures var (p', pc') := SendStep(p, t, threads[t], ok); DataInv(p', OwnerPc(p', threads[t := pc']))
  {
    var pc := threads[t];
    OwnerSendStep(p, threads, t, ok);
    if Owns(pc) {
      OwnerStep(p, t, pc, ok);
      OwnerLogs(p, t, pc, ok);
    } else {
      VisitorStep(p, t, pc, ok);
      var p' := SendStep(p, t, pc, ok).0;
      if p' != p {
        AcquireData(p, t, p');
      }
    }
  }

  /** The owner never enqueues, and hands over only to the kernel, to nobody or to a failed post. */
  lemma OwnerLogs(p: Pump, t: nat, pc: Pc, ok: bool)
    requires InSendCode(pc) && InRange(p, pc) && p.owner == ByThread(t)
    ensures SendStep(p, t, pc, ok).0.enqueued == p.enqueued
    ensures Free(SendStep(p, t, pc, ok).0.owner, t)
  {
  }

  // ---- What no teardown touches ----

  lemma OwnerBatchSizes(p: Pump, t: nat, pc: Pc, ok: bool)
    requires Owns(pc) && p.owner == ByThread(t) && p.ioMode == Sending && RangeInv(p, pc) && BatchSizes(p.wire)
    requires InSendCode(pc) && InRange(p, pc)
    ensures BatchSizes(SendStep(p, t, pc, ok).0.wire)
  {
  }

  lemma SafeRun(s: State, t: nat, ok: bool)
    requires SafeInv(s) && Enabled(s, Run(t, ok)) && InSendCode(s.threads[t])
    ensures SafeInv(Next(s, Run(t, ok)))
  {
    var p, pc := s.pump, s.threads[t];
    OwnerSendStep(p, s.threads, t, ok);
    if Owns(pc) {
      OwnerRange(p, t, pc, ok);
      OwnerBatchSizes(p, t, pc, ok);
      OwnerLogs(p, t, pc, ok);
    } else {
      VisitorStep(p, t, pc, ok);
    }
  }

  lemma SafeStep(s: State, a: Action)
    requires SafeInv(s) && Enabled(s, a)
    ensures SafeInv(Next(s, a))
  {
    if a.Run? && InSendCode(s.threads[a.t]) {
      SafeRun(s, a.t, a.ok);
    } else if NextPc(s, a).Some? {
      SafeOtherThread(s, a);
    } else {
      SafeElsewhere(s, a);
    }
  }

  lemma SafeOtherThread(s: State, a: Action)
    requires SafeInv(s) && Enabled(s, a) && !(a.Run? && InSendCode(s.threads[a.t])) && NextPc(s, a).Some?
    ensures SafeInv(Next(s, a))
  {
    var (t, pc) := NextPc(s, a).value;
    OwnerMove(s.pump, s.threads, NextPump(s, a), t, pc);
  }

  lemma SafeElsewhere(s: State, a: Action)
    requires SafeInv(s) && Enabled(s, a) && NextPc(s, a).None?
    ensures SafeInv(Next(s, a))
  {
  }

  lemma {:induction false} SafeAlways(run: seq<State>, actions: seq<Action>, k: nat)
    requires Behavior(run, actions) && k < |run|
    ensures SafeInv(run[k])
  {
    if k > 0 {
      SafeAlways(run, actions, k - 1);
      assert StepAt(run, actions, k - 1);
      SafeStep(run[k - 1], actions[k - 1]);
    }
  }

  // ---- What holds until the queue is drained ----

  lemma NotIntactStays(s: State, a: Action)
    requires Enabled(s, a) && Intact(Next(s, a).pump)
    ensures Intact(s.pump)
  {
  }

  /** The owner's pc after a step that is not its own. */
  lemma OtherOwnerPc(s: State, a: Action)
    requires OwnerInv(s.pump, s.threads) && Enabled(s, a)
    requires !(a.Run? && InSendCode(s.threads[a.t])) && !a.SendCompletion? && a != OrphanSend
    ensures var s' := Next(s, a); OwnerPc(s'.pump, s'.threads) == OwnerPc(s.pump, s.threads)
  {
  }

  lemma DataStep(s: State, a: Action)
    requires SafeInv(s) && Enabled(s, a) && Intact(Next(s, a).pump) && DataInv(s.pump, OwnerPc(s.pump, s.threads))
    ensures DataInv(Next(s, a).pump, OwnerPc(Next(s, a).pump, Next(s, a).threads))
  {
    var s', pc := Next(s, a), OwnerPc(s.pump, s.threads);
    if a.Run? && InSendCode(s.threads[a.t]) {
      SendStepData(s.pump, s.threads, a.t, a.ok);
    } else if a.SendCompletion? {
      OwnerMove(s.pump, s.threads, s'.pump, a.t, s'.threads[a.t]);
      CompletionData(s.pump, a.t, a.ok, s'.pump);
    } else if a == OrphanSend {
      CompletionData(s.pump, 0, false, s'.pump);
    } else {
      OtherOwnerPc(s, a);
      OtherData(s, a, pc);
    }
  }

  lemma OtherData(s: State, a: Action, pc: Pc)
    requires Enabled(s, a) && Intact(s.pump) && Intact(Next(s, a).pump) && DataInv(s.pump, pc)
    requires !(a.Run? && InSendCode(s.threads[a.t])) && !a.SendCompletion? && a != OrphanSend
    ensures DataInv(Next(s, a).pump, pc)
  {
    match a
    case EnqueuePacket(_, b) => EnqueueData(s.pump, pc, b, Next(s, a).pump);
    case TeardownStep => TeardownData(s.pump, pc);
    case Erase => SameBuffers(s.pump, pc, Next(s, a).pump, pc);
    case _ =>
  }

  lemma SendInvStep(s: State, a: Action)
    requires SendInv(s) && Enabled(s, a)
    ensures SendInv(Next(s, a))
  {
    SafeStep(s, a);
    if Intact(Next(s, a).pump) {
      NotIntactStays(s, a);
      DataStep(s, a);
    }
  }

  lemma {:induction false} SendInvAlways(run: seq<State>, actions: seq<Action>, k: nat)
    requires Behavior(run, actions) && k < |run|
    ensures SendInv(run[k])
  {
    if k > 0 {
      SendInvAlways(run, actions, k - 1);
      assert StepAt(run, actions, k - 1);
      SendInvStep(run[k - 1], actions[k - 1]);
    }
  }

  // ---- What holds in every state of every run ----

  /** While `ioMode` is Sending, exactly one party owns the send side: one thread, the posted
      send, or a send that failed for good. Nobody owns it otherwise. */
  lemma OneOwner(run: seq<State>, actions: seq<Action>, k: nat)
    requires Behavior(run, actions) && k < |run|
    ensures var s := run[k];
      && (forall t, u :: 0 <= t < |s.threads| && 0 <= u < |s.threads| ==>
            Owns(s.threads[t]) && Owns(s.threads[u]) ==> t == u)
      && (forall t :: 0 <= t < |s.threads| && Owns(s.threads[t]) ==> s.pump.ioMode == Sending && !s.pump.posted)
      && (s.pump.posted ==> s.pump.ioMode == Sending)
      && (s.pump.ioMode == Sending ==>
            s.pump.posted || s.pump.owner in {FailedPost, FailedCompletion}
            || exists t :: 0 <= t < |s.threads| && Owns(s.threads[t]))
      && (s.pump.owner in {FailedPost, FailedCompletion} ==>
            && s.pump.ioMode == Sending && !s.pump.posted
            && forall t :: 0 <= t < |s.threads| ==> !Owns(s.threads[t]))
  {
    SafeAlways(run, actions, k);
  }

  ghost predicate Dead(p: Pump) {
    p.owner == FailedPost || p.owner == FailedCompletion
  }

  /** The same failed send, nothing batched, stored or handed to the kernel since. */
  ghost predicate StillDead(p: Pump, p': Pump) {
    p'.owner == p.owner && p'.ioMode == Sending && !p'.posted && p'.wire == p.wire && p'.store == p.store
  }

  /** A failed send is never revived, whatever the rest of the run does. */
  lemma {:induction false} DeadForever(run: seq<State>, actions: seq<Action>, j: nat, k: nat)
    requires Behavior(run, actions) && j <= k < |run| && Dead(run[j].pump)
    ensures StillDead(run[j].pump, run[k].pump)
    decreases k
  {
    if j == k {
      SafeAlways(run, actions, k);
    } else {
      DeadForever(run, actions, j, k - 1);
      SafeAlways(run, actions, k - 1);
      assert StepAt(run, actions, k - 1);
      StaysDead(run[k - 1], actions[k - 1]);
    }
  }

  lemma StaysDead(s: State, a: Action)
    requires OwnerInv(s.pump, s.threads) && Enabled(s, a) && Dead(s.pump)
    ensures StillDead(s.pump, Next(s, a).pump)
  {
    if a.Run? && InSendCode(s.threads[a.t]) {
      assert !Owns(s.threads[a.t]);
      VisitorStep(s.pump, a.t, s.threads[a.t], a.ok);
    }
  }

  /** The packets handed to `SendPacket` in the first k steps. */
  function Packets(actions: seq<Action>, k: nat): seq<Buffer>
    requires k <= |actions|
  {
    if k == 0 then []
    else Packets(actions, k - 1) + if actions[k - 1].EnqueuePacket? then [actions[k - 1].b] else []
  }

  lemma {:induction false} EnqueuedExactly(run: seq<State>, actions: seq<Action>, k: nat)
    requires Behavior(run, actions) && k < |run|
    ensures run[k].pump.enqueued == Packets(actions, k)
  {
    if k > 0 {
      EnqueuedExactly(run, actions, k - 1);
      assert StepAt(run, actions, k - 1);
      EnqueuedStep(run[k - 1], actions[k - 1]);
    }
  }

  lemma EnqueuedStep(s: State, a: Action)
    requires Enabled(s, a)
    ensures Next(s, a).pump.enqueued == s.pump.enqueued + if a.EnqueuePacket? then [a.b] else []
  {
  }

  /** Until a teardown drains the queue the batches handed to `WSASend`, end to end, are a prefix of the
      packets in the order of their calls; always each holds 1 to 20 buffers, and `bufferCount` is zero while
      nobody is sending. */
  lemma BatchesInOrder(run: seq<State>, actions: seq<Action>, k: nat)
    requires Behavior(run, actions) && k < |run|
    ensures var p := run[k].pump;
      && (Intact(p) ==> Flatten(p.wire) <= Packets(actions, k))
      && (forall j :: 0 <= j < |p.wire| ==> 1 <= |p.wire[j]| <= 20)
      && (p.ioMode == NoneSending ==> p.bufferCount == 0)
  {
    SendInvAlways(run, actions, k);
    EnqueuedExactly(run, actions, k);
    if Intact(run[k].pump) {
      BatchesPrefix(run[k].pump, OwnerPc(run[k].pump, run[k].threads));
    }
  }

  lemma BatchesPrefix(p: Pump, pc: Pc)
    requires DataInv(p, pc)
    ensures Flatten(p.wire) <= p.enqueued
  {
    SentPrefix(p.enqueued, Flatten(p.wire), Unsent(p, pc), p.queue);
  }

  lemma SentPrefix(enqueued: seq<Buffer>, sent: seq<Buffer>, unsent: seq<Buffer>, queue: seq<Buffer>)
    requires InOrder(enqueued, sent, unsent, queue)
    ensures sent <= enqueued
  {
    assert enqueued == sent + (unsent + queue);
  }

  // ---- The fill loop and the queue ----

  /** The fill loop will find a buffer at every turn it has left. */
  ghost predicate Supplied(p: Pump, pc: Pc) {
    pc.Fill? ==> pc.n - pc.i <= |p.queue|
  }

  /** The teardown drains a buffer that the fill loop counts on. */
  ghost predicate Robs(s: State, a: Action) {
    var p, pc := s.pump, OwnerPc(s.pump, s.threads);
    a == TeardownStep && p.disconnect.DrainingQueue? && pc.Fill? && 0 < |p.queue| <= pc.n - pc.i
  }

  lemma SuppliedSendStep(p: Pump, threads: seq<Pc>, t: nat, ok: bool)
    requires OwnerInv(p, threads) && Supplied(p, OwnerPc(p, threads))
    requires t < |threads| && InSendCode(threads[t]) && InRange(p, threads[t])
    ensures var (p', pc') := SendStep(p, t, threads[t], ok); Supplied(p', OwnerPc(p', threads[t := pc']))
  {
    OwnerSendStep(p, threads, t, ok);
    if !Owns(threads[t]) {
      VisitorStep(p, t, threads[t], ok);
    }
  }

  lemma SuppliedStep(s: State, a: Action)
    requires SafeInv(s) && Enabled(s, a) && Supplied(s.pump, OwnerPc(s.pump, s.threads))
    ensures var s' := Next(s, a); Supplied(s'.pump, OwnerPc(s'.pump, s'.threads)) <==> !Robs(s, a)
  {
    if a.Run? && InSendCode(s.threads[a.t]) {
      SuppliedSendStep(s.pump, s.threads, a.t, a.ok);
    } else if !a.SendCompletion? && a != OrphanSend {
      OtherOwnerPc(s, a);
    }
  }

  /** In every run, the fill loop has been supplied in every state so far if and only if the teardown has
      drained no buffer it counted on. */
  lemma {:induction false} SuppliedExactly(run: seq<State>, actions: seq<Action>, k: nat)
    requires Behavior(run, actions) && k < |run|
    ensures (forall j :: 0 <= j <= k ==> Supplied(run[j].pump, OwnerPc(run[j].pump, run[j].threads)))
       <==> (forall j :: 0 <= j < k ==> !Robs(run[j], actions[j]))
  {
    if k > 0 {
      SuppliedExactly(run, actions, k - 1);
      SafeAlways(run, actions, k - 1);
      assert StepAt(run, actions, k - 1);
      if Supplied(run[k - 1].pump, OwnerPc(run[k - 1].pump, run[k - 1].threads)) {
        SuppliedStep(run[k - 1], actions[k - 1]);
      }
    }
  }

  /** Wherever a thread or the teardown stands, in any run, its next statement stays inside the store, and
      `bufferCount += restSize` stays within it. Every dequeue of the fill loop finds a buffer, unless
      the teardown has drained one that such a loop counted on. */
  lemma EveryStatementSafe(run: seq<State>, actions: seq<Action>, k: nat, t: nat)
    requires Behavior(run, actions) && k < |run| && t < |run[k].threads|
    ensures InRange(run[k].pump, run[k].threads[t])
    ensures InTeardown(run[k].pump) ==> CanDisconnect(run[k].pump)
    ensures var p, pc := run[k].pump, run[k].threads[t];
      && (pc.AddCount? ==> p.bufferCount + pc.n <= ONE_SEND_WSABUF_MAX)
      && (pc.Fill? && pc.i < pc.n && p.queue == [] ==> exists j :: 0 <= j < k && Robs(run[j], actions[j]))
  {
    SafeAlways(run, actions, k);
    var s := run[k];
    if Owns(s.threads[t]) {
      assert OwnerPc(s.pump, s.threads) == s.threads[t];
      OwnerRange(s.pump, t, s.threads[t], true);
      SuppliedExactly(run, actions, k);
    }
  }
}
