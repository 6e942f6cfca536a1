/** How far the send pump gets: every call ends, and exactly when a buffer is left behind. */
module SessionProgress {
  import opened SessionSteps
  import opened SessionSends

  /** An upper bound on the statements a thread still executes in `DoSend` or `OnSendIoCompleted`. */
  function Remaining(pc: Pc): nat {
    match pc
    case Acquire(NoneSending) => 30
    case ReadSize(NoneSending) => 29
    case EmptyRelease(NoneSending) => 28
    case Acquire(Sending) => 27
    case ReadSize(Sending) => 26
    case EmptyRelease(Sending) => 1
    case Fill(i, n) => if i < n then 5 + n - i else 5
    case AddCount(_) => 4
    case CountSend(_) => 3
    case PostSend(_) => 2
    case SendFailed => 1
    case FreeStore(i) => if i < ONE_SEND_WSABUF_MAX then 34 + 2 * (ONE_SEND_WSABUF_MAX - i) else 34
    case FreePlace(i) => if i < ONE_SEND_WSABUF_MAX then 33 + 2 * (ONE_SEND_WSABUF_MAX - i) else 35
    case ResetCount => 33
    case ReleaseMode => 32
    case RetireSend => 31
    case _ => 0
  }

  /** Each of a thread's own statements brings it nearer to its return. */
  lemma ThreadEnds(p: Pump, threads: seq<Pc>, t: nat, ok: bool)
    requires OwnerInv(p, threads) && RangeInv(p, OwnerPc(p, threads))
    requires t < |threads| && InSendCode(threads[t]) && InRange(p, threads[t])
    ensures Remaining(SendStep(p, t, threads[t], ok).1) < Remaining(threads[t])
  {
    if Owns(threads[t]) {
      OwnerEnds(p, t, threads[t], ok);
    }
  }

  lemma OwnerEnds(p: Pump, t: nat, pc: Pc, ok: bool)
    requires Owns(pc) && p.owner == ByThread(t) && p.ioMode == Sending && RangeInv(p, pc) && InRange(p, pc)
    ensures Remaining(SendStep(p, t, pc, ok).1) < Remaining(pc)
  {
  }

  /** How many of the actions from k up to m are statements of thread t. */
  function OwnStatements(actions: seq<Action>, k: nat, m: nat, t: nat): nat
    requires k <= m <= |actions|
  {
    if k == m then 0
    else OwnStatements(actions, k, m - 1, t) + if actions[m - 1].Run? && actions[m - 1].t == t then 1 else 0
  }

  /** `DoSend` and `OnSendIoCompleted` are wait-free: in every run, whatever the other threads do,
      a thread that enters `DoSend` executes at most 30 statements in it, two passes included. */
  lemma {:induction false} SendCodeBounded(run: seq<State>, actions: seq<Action>, k: nat, m: nat, t: nat)
    requires Behavior(run, actions) && k <= m <= |actions| && t < |run[k].threads|
    requires forall j :: k <= j < m ==> t < |run[j].threads| && InSendCode(run[j].threads[t])
    ensures t < |run[m].threads|
    ensures OwnStatements(actions, k, m, t) + Remaining(run[m].threads[t]) <= Remaining(run[k].threads[t])
    ensures run[k].threads[t] == Acquire(NoneSending) ==> OwnStatements(actions, k, m, t) <= 30
  {
    if k < m {
      SendCodeBounded(run, actions, k, m - 1, t);
      SafeAlways(run, actions, m - 1);
      assert StepAt(run, actions, m - 1);
      var a := actions[m - 1];
      if a.Run? && a.t == t {
        ThreadEnds(run[m - 1].pump, run[m - 1].threads, t, a.ok);
      } else {
        OthersLeaveAlone(run[m - 1], a, t);
      }
    }
  }

  lemma OthersLeaveAlone(s: State, a: Action, t: nat)
    requires Enabled(s, a) && t < |s.threads| && !Waits(s.threads[t]) && !(a.Run? && a.t == t)
    ensures Next(s, a).threads[t] == s.threads[t]
  {
  }

  /** How many statements a thread outside the send code still executes. */
  function RecvRemaining(pc: Pc): nat {
    match pc
    case DrainRecv => 5
    case CountRecv => 4
    case PostRecv => 3
    case RecvFailed => 2
    case RetireRecv | DropSend => 1
    case _ => 0
  }

  /** A receive completion ends too, its drain loop being one statement here: after five at most. */
  lemma {:induction false} RecvCodeBounded(run: seq<State>, actions: seq<Action>, k: nat, m: nat, t: nat)
    requires Behavior(run, actions) && k <= m <= |actions| && t < |run[k].threads|
    requires forall j :: k <= j < m ==>
      t < |run[j].threads| && !Waits(run[j].threads[t]) && !InSendCode(run[j].threads[t])
    ensures t < |run[m].threads|
    ensures OwnStatements(actions, k, m, t) + RecvRemaining(run[m].threads[t]) <= RecvRemaining(run[k].threads[t]) <= 5
  {
    if k < m {
      RecvCodeBounded(run, actions, k, m - 1, t);
      assert StepAt(run, actions, m - 1);
      var a := actions[m - 1];
      if !(a.Run? && a.t == t) {
        OthersLeaveAlone(run[m - 1], a, t);
      }
    }
  }

  // ---- What a call returns ----

  /** The action starts a call of `DoSend` on thread t, through `SendPacket` or a completion. */
  predicate StartsCall(a: Action, t: nat) {
    (a.EnqueuePacket? && a.t == t) || (a == SendCompletion(t, true))
  }

  /** Since thread t last started a call, it has posted a send in vain. */
  ghost function PostFailed(run: seq<State>, actions: seq<Action>, k: nat, t: nat): bool
    requires k < |run| == |actions| + 1
  {
    if k == 0 || StartsCall(actions[k - 1], t) then false
    else if actions[k - 1] == Run(t, false) && t < |run[k - 1].threads| && run[k - 1].threads[t].PostSend? then true
    else PostFailed(run, actions, k - 1, t)
  }

  ghost predicate ResultInv(pc: Pc, failed: bool) {
    && (InSendCode(pc) ==> (pc == SendFailed <==> failed))
    && (pc.Returned? ==> pc.ok == !failed)
  }

  lemma ResultStep(s: State, a: Action, t: nat, failed: bool)
    requires Enabled(s, a) && t < |s.threads| && ResultInv(s.threads[t], failed)
    ensures var failed' := !StartsCall(a, t) && (failed || (a == Run(t, false) && s.threads[t].PostSend?));
      ResultInv(Next(s, a).threads[t], failed')
  {
  }

  lemma SameThreads(s: State, a: Action)
    requires Enabled(s, a)
    ensures |Next(s, a).threads| == |s.threads|
  {
  }

  /** In every run a thread whose `DoSend` has returned was given false if and only if that call made a post and the
      post failed. One that found `ioMode` SENDING, or nothing to send, was given true. */
  lemma {:induction false} ResultExactly(run: seq<State>, actions: seq<Action>, k: nat, t: nat)
    requires Behavior(run, actions) && k < |run| && t < |run[k].threads|
    ensures ResultInv(run[k].threads[t], PostFailed(run, actions, k, t))
    ensures run[k].threads[t] == Returned(false) ==> PostFailed(run, actions, k, t)
    ensures run[k].threads[t] == Returned(true) ==> !PostFailed(run, actions, k, t)
  {
    if k > 0 {
      assert StepAt(run, actions, k - 1);
      SameThreads(run[k - 1], actions[k - 1]);
      ResultExactly(run, actions, k - 1, t);
      ResultStep(run[k - 1], actions[k - 1], t, PostFailed(run, actions, k - 1, t));
    }
  }

  // ---- Buffers left behind ----

  /** A thread about to try for ownership. */
  predicate WillTry(pc: Pc) {
    pc == Acquire(NoneSending) || pc == RetireSend
  }

  ghost predicate SomeoneTries(threads: seq<Pc>) {
    exists t :: 0 <= t < |threads| && WillTry(threads[t])
  }

  /** No buffer waits without someone who will send it: a live send whose completion sends again, or a
      thread about to try while nobody sends. A dead send serves nothing. */
  ghost predicate Covered(p: Pump, threads: seq<Pc>) {
    p.queue == [] || (!Dead(p) && (p.ioMode == Sending || SomeoneTries(threads)))
  }

  /** The statements of a thread that leave a buffer behind: the release in the second pass of `DoSend`,
      when a buffer was enqueued after the size was read and its sender has already given up; and a
      post that fails while more is queued than the batch held. */
  ghost predicate RunStrands(p: Pump, threads: seq<Pc>, t: nat, ok: bool)
    requires t < |threads|
  {
    p.queue != [] && ((threads[t] == EmptyRelease(Sending) && !SomeoneTries(threads)) || (threads[t].PostSend? && !ok))
  }

  /** The steps that leave a buffer behind: such a statement, the completion of a send that failed or is
      dropped while a buffer is queued, and an enqueue onto a dead send. */
  ghost predicate Strands(s: State, a: Action) {
    match a
    case Run(t, ok) => t < |s.threads| && RunStrands(s.pump, s.threads, t, ok)
    case SendCompletion(_, ok) => !ok && s.pump.queue != []
    case OrphanSend => s.pump.queue != []
    case EnqueuePacket(_, _) => Dead(s.pump)
    case _ => false
  }

  lemma TriesElsewhere(threads: seq<Pc>, t: nat, pc: Pc)
    requires t < |threads| && !WillTry(threads[t])
    ensures SomeoneTries(threads[t := pc]) <==> WillTry(pc) || SomeoneTries(threads)
  {
    var threads' := threads[t := pc];
    if SomeoneTries(threads) {
      var u :| 0 <= u < |threads| && WillTry(threads[u]);
      assert WillTry(threads'[u]);
    }
    if WillTry(pc) {
      assert WillTry(threads'[t]);
    }
  }

  lemma OwnerCovered(p: Pump, threads: seq<Pc>, t: nat, ok: bool)
    requires OwnerInv(p, threads) && Covered(p, threads) && t < |threads|
    requires Owns(threads[t]) && InRange(p, threads[t])
    ensures var (p', pc') := SendStep(p, t, threads[t], ok);
      Covered(p', threads[t := pc']) <==> !RunStrands(p, threads, t, ok)
  {
    TriesElsewhere(threads, t, SendStep(p, t, threads[t], ok).1);
  }

  lemma VisitorCovered(p: Pump, threads: seq<Pc>, t: nat, ok: bool)
    requires OwnerInv(p, threads) && Covered(p, threads) && t < |threads|
    requires !Owns(threads[t]) && InSendCode(threads[t]) && InRange(p, threads[t])
    ensures var (p', pc') := SendStep(p, t, threads[t], ok); Covered(p', threads[t := pc'])
  {
    var pc' := SendStep(p, t, threads[t], ok).1;
    if threads[t] == RetireSend {
      assert WillTry(threads[t := pc'][t]);
    } else if threads[t] == SendFailed {
      TriesElsewhere(threads, t, pc');
    }
  }

  lemma MovesCovered(p: Pump, threads: seq<Pc>, t: nat, pc: Pc)
    requires Covered(p, threads) && t < |threads| && !WillTry(threads[t])
    ensures Covered(p, threads[t := pc])
  {
    TriesElsewhere(threads, t, pc);
  }

  lemma EnqueueCovered(s: State, t: nat, b: Buffer)
    requires OwnerInv(s.pump, s.threads) && Enabled(s, EnqueuePacket(t, b))
    ensures var s' := Next(s, EnqueuePacket(t, b)); Covered(s'.pump, s'.threads) <==> !Dead(s.pump)
  {
    var s' := Next(s, EnqueuePacket(t, b));
    assert WillTry(s'.threads[t]);
  }

  lemma CompletionCovered(s: State, a: Action)
    requires OwnerInv(s.pump, s.threads) && Enabled(s, a) && (a.SendCompletion? || a == OrphanSend)
    ensures Covered(Next(s, a).pump, Next(s, a).threads) <==> !Strands(s, a)
  {
  }

  /** A buffer is left behind by a step if and only if the step is one of these. */
  lemma StrandedExactly(s: State, a: Action)
    requires OwnerInv(s.pump, s.threads) && Enabled(s, a) && Covered(s.pump, s.threads)
    ensures Covered(Next(s, a).pump, Next(s, a).threads) <==> !Strands(s, a)
  {
    match a
    case Run(t, ok) =>
      if Owns(s.threads[t]) {
        OwnerCovered(s.pump, s.threads, t, ok);
      } else if InSendCode(s.threads[t]) {
        VisitorCovered(s.pump, s.threads, t, ok);
      } else {
        MovesCovered(s.pump, s.threads, t, RecvNext(s.threads[t], ok));
      }
    case EnqueuePacket(t, b) => EnqueueCovered(s, t, b);
    case RecvCompletion(t, ok) => MovesCovered(s.pump, s.threads, t, Next(s, a).threads[t]);
    case SendCompletion(_, _) => CompletionCovered(s, a);
    case OrphanSend => CompletionCovered(s, a);
    case _ =>
  }

  /** In every run: no buffer has been left behind in any of its states if and only if none of its steps
      was one of these. So the first buffer left behind is left by exactly such a step. */
  lemma {:induction false} StrandedInRun(run: seq<State>, actions: seq<Action>, k: nat)
    requires Behavior(run, actions) && k < |run|
    ensures (forall j :: 0 <= j <= k ==> Covered(run[j].pump, run[j].threads))
       <==> (forall j :: 0 <= j < k ==> !Strands(run[j], actions[j]))
  {
    if k > 0 {
      StrandedInRun(run, actions, k - 1);
      SafeAlways(run, actions, k - 1);
      assert StepAt(run, actions, k - 1);
      if Covered(run[k - 1].pump, run[k - 1].threads) {
        StrandedExactly(run[k - 1], actions[k - 1]);
      }
    }
  }

  // ---- A buffer can be left behind ----

  ghost predicate Reachable(s: State) {
    exists run, actions :: Behavior(run, actions) && run[|actions|] == s
  }

  lemma ReachNext(s: State, a: Action)
    requires Reachable(s) && Enabled(s, a)
    ensures Reachable(Next(s, a))
  {
    var run, actions :| Behavior(run, actions) && run[|actions|] == s;
    var run', actions' := run + [Next(s, a)], actions + [a];
    forall k | 0 <= k < |actions'|
      ensures StepAt(run', actions', k)
    {
      if k < |actions| {
        assert StepAt(run, actions, k);
      }
    }
    assert Behavior(run', actions') && run'[|actions'|] == Next(s, a);
  }

  /** A lone buffer, once its sender has acquired the send side, is batched and posted. */
  lemma ReachPosted(q: Pump, l: Life, other: Pc, p: Pump)
    requires Reachable(State(q, l, [Acquire(NoneSending), other]))
    requires q.ioMode == NoneSending && |q.queue| == 1 && |q.store| == ONE_SEND_WSABUF_MAX && q.bufferCount == 0
    requires p == q.(ioMode := Sending, owner := Kernel, posted := true, queue := [], bufferCount := 1,
                     store := q.store[0 := q.queue[0]], wire := q.wire + [[q.queue[0]]])
    ensures Reachable(State(p, l.(ioCount := l.ioCount + 1), [Returned(true), other]))
  {
    ReachFilled(q, l, other);
    var f := q.(ioMode := Sending, owner := ByThread(0), queue := [], store := q.store[0 := q.queue[0]],
                bufferCount := 1);
    ReachNext(State(f, l, [CountSend(1), other]), Run(0, true));
    ReachSent(f, l.(ioCount := l.ioCount + 1), other);
  }

  lemma ReachSent(f: Pump, l: Life, other: Pc)
    requires Reachable(State(f, l, [PostSend(1), other])) && |f.store| == ONE_SEND_WSABUF_MAX
    ensures Reachable(State(
      f.(owner := Kernel, posted := true, wire := f.wire + [[f.store[0]]]),
      l, [Returned(true), other]))
  {
    ReachNext(State(f, l, [PostSend(1), other]), Run(0, true));
    assert f.store[..1] == [f.store[0]];
  }

  lemma ReachFilled(q: Pump, l: Life, other: Pc)
    requires Reachable(State(q, l, [Acquire(NoneSending), other]))
    requires q.ioMode == NoneSending && |q.queue| == 1 && |q.store| == ONE_SEND_WSABUF_MAX && q.bufferCount == 0
    ensures Reachable(State(
      q.(ioMode := Sending, owner := ByThread(0), queue := [], store := q.store[0 := q.queue[0]], bufferCount := 1),
      l, [CountSend(1), other]))
  {
    ReachNext(State(q, l, [Acquire(NoneSending), other]), Run(0, true));
    var o := q.(ioMode := Sending, owner := ByThread(0));
    ReachNext(State(o, l, [ReadSize(NoneSending), other]), Run(0, true));
    ReachStored(o, l, other);
  }

  /** The fill loop takes the lone buffer. */
  lemma ReachStored(o: Pump, l: Life, other: Pc)
    requires Reachable(State(o, l, [Fill(0, 1), other]))
    requires |o.queue| == 1 && |o.store| == ONE_SEND_WSABUF_MAX && o.bufferCount == 0
    ensures Reachable(State(
      o.(queue := [], store := o.store[0 := o.queue[0]], bufferCount := 1), l, [CountSend(1), other]))
  {
    ReachNext(State(o, l, [Fill(0, 1), other]), Run(0, true));
    var f := o.(queue := [], store := o.store[0 := o.queue[0]]);
    assert o.queue[1..] == [];
    ReachNext(State(f, l, [Fill(1, 1), other]), Run(0, true));
    ReachNext(State(f, l, [AddCount(1), other]), Run(0, true));
  }

  /** The completion of a one-buffer send frees the buffer. */
  lemma ReachFreed(p: Pump, l: Life, other: Pc)
    requires Reachable(State(p, l, [Returned(true), other]))
    requires p.posted && l.registered && p.bufferCount == 1 && |p.store| == ONE_SEND_WSABUF_MAX
    ensures Reachable(State(
      p.(posted := false, owner := ByThread(0), freed := p.freed + [p.store[0]]), l, [ResetCount, other]))
  {
    ReachNext(State(p, l, [Returned(true), other]), SendCompletion(0, true));
    var c := p.(posted := false, owner := ByThread(0));
    ReachFreedOne(c, l, other);
    ReachNext(State(c.(freed := c.freed + [c.store[0]]), l, [FreeStore(1), other]), Run(0, true));
  }

  lemma ReachFreedOne(c: Pump, l: Life, other: Pc)
    requires Reachable(State(c, l, [FreeStore(0), other])) && 1 <= c.bufferCount && |c.store| == ONE_SEND_WSABUF_MAX
    ensures Reachable(State(c.(freed := c.freed + [c.store[0]]), l, [FreeStore(1), other]))
  {
    ReachNext(State(c, l, [FreeStore(0), other]), Run(0, true));
    ReachNext(State(c, l, [FreePlace(0), other]), Run(0, true));
  }

  /** It then gives the send side back. */
  lemma ReachReleased(f: Pump, l: Life, other: Pc)
    requires Reachable(State(f, l, [ResetCount, other]))
    ensures Reachable(State(f.(bufferCount := 0, ioMode := NoneSending, owner := NoOwner), l, [RetireSend, other]))
  {
    ReachNext(State(f, l, [ResetCount, other]), Run(0, true));
    ReachNext(State(f.(bufferCount := 0), l, [ReleaseMode, other]), Run(0, true));
  }

  /** It gives up its hold on the session and starts `DoSend`. */
  lemma ReachRetired(r: Pump, l: Life, other: Pc)
    requires Reachable(State(r, l, [RetireSend, other])) && l.ioCount > 1
    ensures Reachable(State(r, l.(ioCount := l.ioCount - 1), [Acquire(NoneSending), other]))
  {
    ReachNext(State(r, l, [RetireSend, other]), Run(0, true));
  }

  /** With the queue empty, a thread gets to the release in its second pass. */
  lemma ReachSecondPass(q: Pump, l: Life, other: Pc)
    requires Reachable(State(q, l, [Acquire(NoneSending), other]))
    requires q.ioMode == NoneSending && q.queue == []
    ensures Reachable(State(q.(ioMode := Sending, owner := ByThread(0)), l, [EmptyRelease(Sending), other]))
  {
    ReachNext(State(q, l, [Acquire(NoneSending), other]), Run(0, true));
    var o := q.(ioMode := Sending, owner := ByThread(0));
    ReachNext(State(o, l, [ReadSize(NoneSending), other]), Run(0, true));
    ReachSecondRead(o, l, other);
  }

  lemma ReachSecondRead(o: Pump, l: Life, other: Pc)
    requires Reachable(State(o, l, [EmptyRelease(NoneSending), other]))
    requires o.ioMode == Sending && o.owner == ByThread(0) && o.queue == []
    ensures Reachable(State(o, l, [EmptyRelease(Sending), other]))
  {
    ReachNext(State(o, l, [EmptyRelease(NoneSending), other]), Run(0, true));
    ReachReacquired(o, l, other);
  }

  lemma ReachReacquired(o: Pump, l: Life, other: Pc)
    requires Reachable(State(o, l, [Acquire(Sending), other]))
    requires o.ioMode == Sending && o.owner == ByThread(0) && o.queue == []
    ensures Reachable(State(o, l, [EmptyRelease(Sending), other]))
  {
    ReachNext(State(o, l, [Acquire(Sending), other]), Run(0, true));
    ReachNext(State(o, l, [ReadSize(Sending), other]), Run(0, true));
  }

  /** A buffer enqueued in the window before that release stays in the queue. */
  lemma ReachStranded(o: Pump, l: Life, b: Buffer)
    requires Reachable(State(o, l, [EmptyRelease(Sending), Idle]))
    requires o.ioMode == Sending && o.queue == [] && l.accept != TakeHold && b !in o.enqueued && b != NIL
    ensures Reachable(State(
      o.(ioMode := NoneSending, owner := NoOwner, queue := [b], enqueued := o.enqueued + [b]),
      l, [Returned(true), Returned(true)]))
  {
    ReachNext(State(o, l, [EmptyRelease(Sending), Idle]), EnqueuePacket(1, b));
    ReachTurnedAway(o.(queue := [b], enqueued := o.enqueued + [b]), l);
  }

  /** The other thread finds the send side taken, and then it is given back. */
  lemma ReachTurnedAway(e: Pump, l: Life)
    requires Reachable(State(e, l, [EmptyRelease(Sending), Acquire(NoneSending)])) && e.ioMode == Sending
    ensures Reachable(State(e.(ioMode := NoneSending, owner := NoOwner), l, [Returned(true), Returned(true)]))
  {
    ReachNext(State(e, l, [EmptyRelease(Sending), Acquire(NoneSending)]), Run(1, true));
    ReachNext(State(e, l, [EmptyRelease(Sending), Returned(true)]), Run(0, true));
  }

  function UnusedPump(): Pump {
    Pump(NoneSending, [], seq(ONE_SEND_WSABUF_MAX, _ => NIL), 0, false, NotYet, NoOwner, [], [], [])
  }

  /** The accept thread's first three statements. */
  lemma ReachInserted(p: Pump)
    requires p == UnusedPump()
    ensures Reachable(State(p, Life(1, 0, true, AcceptCountRecv, false, 0, AtAccept), [Idle, Idle]))
  {
    var s := State(p, Life(0, 0, false, TakeHold, false, 0, AtAccept), [Idle, Idle]);
    assert Behavior([s], []);
    ReachNext(s, Accept(true));
    ReachNext(State(p, Life(1, 0, false, Associate, false, 0, AtAccept), [Idle, Idle]), Accept(true));
    ReachNext(State(p, Life(1, 0, false, Insert, false, 0, AtAccept), [Idle, Idle]), Accept(true));
  }

  /** A buffer is enqueued, sent and freed, and the send side given back. */
  lemma ReachSentOnce(p: Pump, l: Life, done: Pump)
    requires p == UnusedPump() && l == Life(1, 0, true, AcceptCountRecv, false, 0, AtAccept)
    requires done == p.(store := p.store[0 := 7], enqueued := [7], wire := [[7]], freed := [7])
    ensures Reachable(State(done, l.(ioCount := 2), [RetireSend, Idle]))
  {
    ReachInserted(p);
    ReachNext(State(p, l, [Idle, Idle]), EnqueuePacket(0, 7));
    var q := p.(queue := [7], enqueued := [7]);
    assert p.queue + [7] == [7] && q.wire + [[7]] == [[7]];
    var posted := q.(ioMode := Sending, owner := Kernel, posted := true, queue := [], bufferCount := 1,
                     store := q.store[0 := 7], wire := [[7]]);
    ReachPosted(q, l, Idle, posted);
    ReachFreed(posted, l.(ioCount := 2), Idle);
    assert posted.freed + [posted.store[0]] == [7];
    ReachReleased(posted.(posted := false, owner := ByThread(0), freed := [7]), l.(ioCount := 2), Idle);
  }

  /** So a run exists whose last state has a buffer in the queue, nobody sending, and no thread
      in the send code: `SendPacket` returned true and the buffer waits for the next send. */
  lemma WakeUpCanBeLost()
    ensures exists s: State ::
      && Reachable(s) && s.pump.queue != [] && !Covered(s.pump, s.threads) && s.pump.ioMode == NoneSending
      && forall t :: 0 <= t < |s.threads| ==> Waits(s.threads[t])
  {
    var p := UnusedPump();
    var l := Life(1, 0, true, AcceptCountRecv, false, 0, AtAccept);
    var done := p.(store := p.store[0 := 7], enqueued := [7], wire := [[7]], freed := [7]);
    ReachSentOnce(p, l, done);
    ReachRetired(done, l.(ioCount := 2), Idle);
    ReachSecondPass(done, l, Idle);
    ReachStranded(done.(ioMode := Sending, owner := ByThread(0)), l, 8);
  }
}
