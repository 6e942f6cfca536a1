/** The IO count of a session under every interleaving, and the chain of receives. */
module SessionCounting {
  import opened Common
  import opened SessionSteps
  import opened SessionSends
  import opened SessionProgress

  /** What a thread at this statement has added to `ioCount` and not yet taken off. */
  function Hold(pc: Pc): nat {
    match pc
    case PostSend(_) | SendFailed | FreeStore(_) | FreePlace(_) | ResetCount | ReleaseMode | RetireSend | DropSend
      | DrainRecv | CountRecv | RetireRecv => 1
    case PostRecv | RecvFailed => 2
    case _ => 0
  }

  function AcceptHolds(pc: AcceptPc): nat {
    match pc
    case TakeHold | AcceptDone => 0
    case AcceptPostRecv | AcceptRecvFailed => 2
    case _ => 1
  }

  function One(b: bool): nat { if b then 1 else 0 }

  /** A thread that carries the chain of receives: it holds the ring buffer to itself. */
  predicate Carries(pc: Pc) {
    pc == DrainRecv || pc == CountRecv || pc == PostRecv
  }

  predicate AcceptCarries(pc: AcceptPc) {
    pc in {TakeHold, Associate, Insert, AcceptCountRecv, AcceptPostRecv}
  }

  /** The holds outside the threads: the accept loop, posted operations, and completions
      dropped because the session was no longer registered. */
  ghost function OtherHolds(l: Life, posted: bool): nat {
    AcceptHolds(l.accept) + One(posted) + One(l.recvPosted) + l.lost
  }

  ghost predicate CountInv(s: State) {
    s.life.ioCount == OtherHolds(s.life, s.pump.posted) + Total(s.threads, Hold)
  }

  ghost predicate ChainInv(l: Life, threads: seq<Pc>) {
    && (l.chain == AtAccept <==> AcceptCarries(l.accept))
    && (l.chain == InKernel <==> l.recvPosted)
    && (l.chain.AtThread? ==> l.chain.t < |threads|)
    && forall t :: 0 <= t < |threads| ==> (Carries(threads[t]) <==> l.chain == AtThread(t))
  }

  /** What the release counter and the registration tell about the past. */
  ghost predicate PastInv(l: Life) {
    && (l.releases > 0 ==> l.accept == AcceptDone && l.chain == Ended)
    && (l.accept == AcceptDone && l.ioCount == 0 ==> l.releases > 0)
    && (l.accept in {AcceptCountRecv, AcceptPostRecv} ==> l.registered)
    && (l.chain == InKernel || l.chain.AtThread? ==> l.registered)
  }

  /** Before the accept thread has taken its hold nothing else touches the session. */
  ghost predicate FreshInv(s: State) {
    s.life.accept == TakeHold ==>
      && !s.pump.posted && !s.life.recvPosted && s.life.lost == 0 && s.life.releases == 0
      && forall t :: 0 <= t < |s.threads| ==> s.threads[t] == Idle
  }

  ghost predicate LifeInv(s: State) {
    CountInv(s) && ChainInv(s.life, s.threads) && PastInv(s.life) && FreshInv(s)
  }

  // ---- The count ----

  lemma SendHolds(p: Pump, l: Life, t: nat, pc: Pc, ok: bool)
    requires InSendCode(pc) && InRange(p, pc) && (Owns(pc) ==> !p.posted)
    ensures var (p', pc') := SendStep(p, t, pc, ok);
            One(p'.posted) + Hold(pc') == One(p.posted) + Hold(pc) + LifeStep(l, pc, ok).ioCount - l.ioCount
    ensures var l' := LifeStep(l, pc, ok);
            l'.accept == l.accept && l'.recvPosted == l.recvPosted && l'.lost == l.lost && l'.chain == l.chain
  {
  }

  lemma RecvHolds(l: Life, pc: Pc, ok: bool)
    requires !InSendCode(pc) && !Waits(pc) && (Carries(pc) ==> !l.recvPosted)
    ensures var l' := LifeStep(l, pc, ok);
            && One(l'.recvPosted) + Hold(RecvNext(pc, ok)) == One(l.recvPosted) + Hold(pc) + l'.ioCount - l.ioCount
            && l'.accept == l.accept && l'.lost == l.lost
  {
  }

  lemma CountRun(s: State, t: nat, ok: bool)
    requires CountInv(s) && OwnerInv(s.pump, s.threads) && ChainInv(s.life, s.threads) && Enabled(s, Run(t, ok))
    ensures CountInv(Next(s, Run(t, ok)))
  {
    var pc := s.threads[t];
    if InSendCode(pc) {
      TotalUpdate(s.threads, Hold, t, SendStep(s.pump, t, pc, ok).1);
      SendHolds(s.pump, s.life, t, pc, ok);
    } else {
      TotalUpdate(s.threads, Hold, t, RecvNext(pc, ok));
      RecvHolds(s.life, pc, ok);
    }
  }

  lemma CountAccept(s: State, ok: bool)
    requires CountInv(s) && ChainInv(s.life, s.threads) && Enabled(s, Accept(ok))
    ensures CountInv(Next(s, Accept(ok)))
  {
  }

  lemma CountOther(s: State, a: Action)
    requires CountInv(s) && Enabled(s, a) && !a.Run? && !a.Accept?
    ensures CountInv(Next(s, a))
  {
    match NextPc(s, a)
    case Some((t, pc)) => TotalUpdate(s.threads, Hold, t, pc);
    case None =>
  }

  // ---- The chain of receives ----

  /** The chain changes hands only through the thread that acts. */
  ghost predicate Own(c: Chain, t: nat) {
    c.AtThread? ==> c.t == t
  }

  lemma ChainMove(l: Life, threads: seq<Pc>, l': Life, t: nat, pc': Pc)
    requires ChainInv(l, threads) && t < |threads|
    requires l'.chain == AtAccept <==> AcceptCarries(l'.accept)
    requires l'.chain == InKernel <==> l'.recvPosted
    requires Carries(pc') <==> l'.chain == AtThread(t)
    requires l'.chain == l.chain || (Own(l.chain, t) && Own(l'.chain, t))
    ensures ChainInv(l', threads[t := pc'])
  {
  }

  lemma ChainRun(s: State, t: nat, ok: bool)
    requires ChainInv(s.life, s.threads) && Enabled(s, Run(t, ok))
    ensures ChainInv(Next(s, Run(t, ok)).life, Next(s, Run(t, ok)).threads)
  {
    var pc := s.threads[t];
    if InSendCode(pc) {
      ChainMove(s.life, s.threads, LifeStep(s.life, pc, ok), t, SendStep(s.pump, t, pc, ok).1);
    } else {
      ChainMove(s.life, s.threads, LifeStep(s.life, pc, ok), t, RecvNext(pc, ok));
    }
  }

  lemma ChainStep(s: State, a: Action)
    requires ChainInv(s.life, s.threads) && Enabled(s, a)
    ensures ChainInv(Next(s, a).life, Next(s, a).threads)
  {
    match a
    case Run(t, ok) => ChainRun(s, t, ok);
    case EnqueuePacket(t, _) => ChainMove(s.life, s.threads, s.life, t, Acquire(NoneSending));
    case SendCompletion(t, ok) => ChainMove(s.life, s.threads, s.life, t, if ok then FreeStore(0) else DropSend);
    case RecvCompletion(t, ok) =>
      ChainMove(s.life, s.threads, NextLife(s, a), t, if ok then DrainRecv else RetireRecv);
    case _ =>
  }

  // ---- The count and the chain together ----

  lemma CountStep(s: State, a: Action)
    requires CountInv(s) && OwnerInv(s.pump, s.threads) && ChainInv(s.life, s.threads) && Enabled(s, a)
    ensures CountInv(Next(s, a))
  {
    match a
    case Run(t, ok) => CountRun(s, t, ok);
    case Accept(ok) => CountAccept(s, ok);
    case _ => CountOther(s, a);
  }

  /** At zero nobody holds the session: the accept thread is done and the chain has ended. */
  lemma ZeroMeansDone(s: State)
    requires CountInv(s) && ChainInv(s.life, s.threads) && s.life.ioCount == 0 && s.life.accept != TakeHold
    ensures s.life.accept == AcceptDone && s.life.chain == Ended
  {
    if s.life.chain.AtThread? {
      TotalAtLeast(s.threads, Hold, s.life.chain.t);
    }
  }

  lemma FreshStep(s: State, a: Action)
    requires FreshInv(s) && Enabled(s, a)
    ensures FreshInv(Next(s, a))
  {
  }

  lemma ReleaseStep(s: State, a: Action)
    requires Enabled(s, a)
    ensures var l, l' := s.life, Next(s, a).life;
      l'.releases == l.releases + if l'.ioCount < l.ioCount && l'.ioCount == 0 then 1 else 0
    ensures Next(s, a).life.ioCount - s.life.ioCount in {-1, 0, 1}
  {
  }

  lemma EndedStays(s: State, a: Action)
    requires ChainInv(s.life, s.threads) && Enabled(s, a) && s.life.chain == Ended && s.life.accept == AcceptDone
    ensures Next(s, a).life.chain == Ended && Next(s, a).life.accept == AcceptDone
  {
  }

  lemma RegisteredStep(s: State, a: Action)
    requires PastInv(s.life) && ChainInv(s.life, s.threads) && Enabled(s, a)
    ensures var l := Next(s, a).life;
      && (l.accept in {AcceptCountRecv, AcceptPostRecv} ==> l.registered)
      && (l.chain == InKernel || l.chain.AtThread? ==> l.registered)
  {
    if a.Run? && !InSendCode(s.threads[a.t]) {
      assert Carries(s.threads[a.t]) ==> s.life.chain == AtThread(a.t);
    }
  }

  lemma PastStep(s: State, a: Action)
    requires LifeInv(s) && Enabled(s, a) && CountInv(Next(s, a)) && FreshInv(Next(s, a))
    requires ChainInv(Next(s, a).life, Next(s, a).threads)
    ensures PastInv(Next(s, a).life)
  {
    var l, l' := s.life, Next(s, a).life;
    ReleaseStep(s, a);
    RegisteredStep(s, a);
    if l.releases > 0 {
      EndedStays(s, a);
    } else if l'.releases > 0 {
      ZeroMeansDone(Next(s, a));
    }
    if l'.accept == AcceptDone && l'.ioCount == 0 && l'.ioCount == l.ioCount {
      AcceptNeverIdle(s, a);
    } else if l'.ioCount == 0 {
      assert l.ioCount >= 0;
    }
  }

  /** The accept loop ends with a decrement. */
  lemma AcceptNeverIdle(s: State, a: Action)
    requires Enabled(s, a) && Next(s, a).life.accept == AcceptDone && Next(s, a).life.ioCount == s.life.ioCount
    ensures s.life.accept == AcceptDone && Next(s, a).life.releases == s.life.releases
  {
  }

  /** A session being disconnected is not registered, and never will be again: no completion is handled. */
  ghost predicate GoneInv(s: State) {
    s.pump.disconnect != NotYet ==> !s.life.registered && s.life.releases > 0
  }

  lemma GoneStep(s: State, a: Action)
    requires GoneInv(s) && PastInv(s.life) && Enabled(s, a)
    ensures GoneInv(Next(s, a))
  {
  }

  ghost predicate SessionInv(s: State) {
    SafeInv(s) && LifeInv(s) && GoneInv(s)
  }

  lemma SessionInvStep(s: State, a: Action)
    requires SessionInv(s) && Enabled(s, a)
    ensures SessionInv(Next(s, a))
  {
    SafeStep(s, a);
    CountStep(s, a);
    ChainStep(s, a);
    FreshStep(s, a);
    PastStep(s, a);
    GoneStep(s, a);
  }

  lemma SessionInvInit(s: State)
    requires Init(s)
    ensures LifeInv(s)
  {
    assert CountInv(s) by {
      forall t | 0 <= t < |s.threads|
        ensures Hold(s.threads[t]) == 0
      {
      }
      TotalZero(s.threads, Hold);
    }
    assert ChainInv(s.life, s.threads);
  }

  lemma {:induction false} SessionInvAlways(run: seq<State>, actions: seq<Action>, k: nat)
    requires Behavior(run, actions) && k < |run|
    ensures SessionInv(run[k])
  {
    if k == 0 {
      SafeAlways(run, actions, 0);
      SessionInvInit(run[0]);
    } else {
      SessionInvAlways(run, actions, k - 1);
      assert StepAt(run, actions, k - 1);
      SessionInvStep(run[k - 1], actions[k - 1]);
    }
  }

  // ---- How the chain goes on ----

  /** The chain of receives breaks at this step: the association or the post of the accept thread fails, a receive
      completes with a failure or unseen, the drain loop fails, or the post of the next receive does. */
  ghost predicate Breaks(s: State, a: Action) {
    match a
    case Accept(ok) => !ok && s.life.accept in {Associate, AcceptPostRecv}
    case RecvCompletion(_, ok) => !ok
    case OrphanRecv => true
    case Run(t, ok) => !ok && t < |s.threads| && s.threads[t] in {DrainRecv, PostRecv}
    case _ => false
  }

  ghost predicate Broken(run: seq<State>, actions: seq<Action>, k: nat)
    requires k < |run| == |actions| + 1
  {
    exists j: nat :: j < k && Breaks(run[j], actions[j])
  }

  lemma BreaksStep(s: State, a: Action)
    requires Enabled(s, a) && ChainInv(s.life, s.threads)
    ensures Next(s, a).life.chain == Ended <==> s.life.chain == Ended || Breaks(s, a)
  {
  }

  /** Until such a step somebody carries the chain on: the accept thread before its post, the kernel with a receive
      posted, or one thread between the completion and the next post. After it nobody does, ever. */
  lemma {:induction false} ChainGoesOn(run: seq<State>, actions: seq<Action>, k: nat)
    requires Behavior(run, actions) && k < |run|
    ensures !Broken(run, actions, k) <==>
      run[k].life.recvPosted || AcceptCarries(run[k].life.accept)
      || exists t :: 0 <= t < |run[k].threads| && Carries(run[k].threads[t])
  {
    SessionInvAlways(run, actions, k);
    EndedExactly(run, actions, k);
    var c := run[k].life.chain;
    if c.AtThread? {
      assert Carries(run[k].threads[c.t]);
    }
  }

  lemma EndedNext(run: seq<State>, actions: seq<Action>, k: nat)
    requires Behavior(run, actions) && k < |actions|
    ensures run[k + 1].life.chain == Ended <==> run[k].life.chain == Ended || Breaks(run[k], actions[k])
  {
    SessionInvAlways(run, actions, k);
    assert StepAt(run, actions, k);
    BreaksStep(run[k], actions[k]);
  }

  lemma BrokenNext(run: seq<State>, actions: seq<Action>, k: nat)
    requires k < |actions| == |run| - 1
    ensures Broken(run, actions, k + 1) <==> Broken(run, actions, k) || Breaks(run[k], actions[k])
  {
    if Broken(run, actions, k) {
      var j: nat :| j < k && Breaks(run[j], actions[j]);
      assert j < k + 1;
    }
  }

  lemma {:induction false} EndedExactly(run: seq<State>, actions: seq<Action>, k: nat)
    requires Behavior(run, actions) && k < |run|
    ensures run[k].life.chain == Ended <==> Broken(run, actions, k)
  {
    if k > 0 {
      EndedExactly(run, actions, k - 1);
      EndedNext(run, actions, k - 1);
      BrokenNext(run, actions, k - 1);
    }
  }

  // ---- The accept thread and the registration, told from the steps alone ----

  /** The outcomes of the accept thread's statements so far. */
  function Outcomes(actions: seq<Action>, k: nat): seq<bool>
    requires k <= |actions|
  {
    if k == 0 then []
    else Outcomes(actions, k - 1) + if actions[k - 1].Accept? then [actions[k - 1].ok] else []
  }

  /** It takes its hold, associates, and if that succeeded inserts the session, counts and posts the first receive;
      with a failure at either of the two it takes a hold off first, and it ends by taking off its own. */
  function AcceptedSoFar(oks: seq<bool>): AcceptPc {
    var n := |oks|;
    if n == 0 then TakeHold
    else if n == 1 then Associate
    else if !oks[1] then if n == 2 then AssociateFailed else AcceptDone
    else if n == 2 then Insert
    else if n == 3 then AcceptCountRecv
    else if n == 4 then AcceptPostRecv
    else if !oks[4] then if n == 5 then AcceptRecvFailed else if n == 6 then DropHold else AcceptDone
    else if n == 5 then DropHold
    else AcceptDone
  }

  ghost predicate ErasedBy(actions: seq<Action>, k: nat)
    requires k <= |actions|
  {
    exists j: nat :: j < k && actions[j] == Erase
  }

  lemma AcceptedNext(l: Life, oks: seq<bool>, ok: bool)
    requires l.accept == AcceptedSoFar(oks) && l.accept != AcceptDone
    ensures AcceptStep(l, ok).accept == AcceptedSoFar(oks + [ok])
    ensures AcceptStep(l, ok).registered <==> l.registered || l.accept == Insert
    ensures l.accept == Insert <==> |oks| == 2 && oks[1]
  {
  }

  /** Everything but the accept thread and the erase leaves the registration alone. */
  lemma RegistrationStep(s: State, a: Action)
    requires Enabled(s, a)
    ensures !a.Accept? ==> Next(s, a).life.accept == s.life.accept
    ensures !a.Accept? ==> (Next(s, a).life.registered <==> s.life.registered && a != Erase)
    ensures Next(s, a).pump.disconnect != NotYet <==> s.pump.disconnect != NotYet || a == Erase
  {
  }

  /** The accept thread has come as far as its statements take it. A session is registered from the insertion on,
      which needs the association to have succeeded, until it is erased. */
  lemma {:induction false} RegisteredExactly(run: seq<State>, actions: seq<Action>, k: nat)
    requires Behavior(run, actions) && k < |run|
    ensures run[k].life.accept == AcceptedSoFar(Outcomes(actions, k))
    ensures run[k].life.registered <==>
      |Outcomes(actions, k)| >= 3 && Outcomes(actions, k)[1] && !ErasedBy(actions, k)
    ensures ErasedBy(actions, k) <==> run[k].pump.disconnect != NotYet
  {
    if k > 0 {
      RegisteredExactly(run, actions, k - 1);
      SessionInvAlways(run, actions, k - 1);
      assert StepAt(run, actions, k - 1);
      RegisteredNext(run[k - 1], actions, k - 1);
    }
  }

  lemma RegisteredNext(s: State, actions: seq<Action>, k: nat)
    requires k < |actions| && Enabled(s, actions[k]) && GoneInv(s) && PastInv(s.life)
    requires s.life.accept == AcceptedSoFar(Outcomes(actions, k))
    requires s.life.registered <==> |Outcomes(actions, k)| >= 3 && Outcomes(actions, k)[1] && !ErasedBy(actions, k)
    requires ErasedBy(actions, k) <==> s.pump.disconnect != NotYet
    ensures var l, oks := Next(s, actions[k]).life, Outcomes(actions, k + 1);
      && l.accept == AcceptedSoFar(oks)
      && (l.registered <==> |oks| >= 3 && oks[1] && !ErasedBy(actions, k + 1))
      && (ErasedBy(actions, k + 1) <==> Next(s, actions[k]).pump.disconnect != NotYet)
  {
    RegistrationStep(s, actions[k]);
    assert ErasedBy(actions, k + 1) <==> ErasedBy(actions, k) || actions[k] == Erase;
    if actions[k].Accept? {
      AcceptedNext(s.life, Outcomes(actions, k), actions[k].ok);
    }
  }

  // ---- What holds in every state of every run ----

  /** How many completions of the first k steps found the session unregistered. */
  function Orphans(actions: seq<Action>, k: nat): nat
    requires k <= |actions|
  {
    if k == 0 then 0
    else Orphans(actions, k - 1) + One(actions[k - 1] == OrphanSend || actions[k - 1] == OrphanRecv)
  }

  lemma {:induction false} LostExactly(run: seq<State>, actions: seq<Action>, k: nat)
    requires Behavior(run, actions) && k < |run|
    ensures run[k].life.lost == Orphans(actions, k)
  {
    if k > 0 {
      LostExactly(run, actions, k - 1);
      assert StepAt(run, actions, k - 1);
      LostStep(run[k - 1], actions[k - 1]);
    }
  }

  lemma LostStep(s: State, a: Action)
    requires Enabled(s, a)
    ensures Next(s, a).life.lost == s.life.lost + One(a == OrphanSend || a == OrphanRecv)
  {
  }

  /** `ioCount` is the accept thread's hold, plus the receives and sends being posted, posted or
      not yet retired, plus the completions dropped after the session was unregistered. */
  lemma CountExact(run: seq<State>, actions: seq<Action>, k: nat)
    requires Behavior(run, actions) && k < |run|
    ensures var s := run[k];
      s.life.ioCount == AcceptHolds(s.life.accept) + Total(s.threads, Hold)
                        + One(s.pump.posted) + One(s.life.recvPosted) + Orphans(actions, k)
  {
    SessionInvAlways(run, actions, k);
    LostExactly(run, actions, k);
  }

  /** From the accept thread's hold until that thread is done and the receive chain has ended,
      the count stays at one or more and no release key has been queued. */
  lemma HeldUntilReceivesEnd(run: seq<State>, actions: seq<Action>, k: nat)
    requires Behavior(run, actions) && k < |run|
    ensures var l := run[k].life;
      l.accept != TakeHold && (l.accept != AcceptDone || l.chain != Ended) ==> l.ioCount >= 1 && l.releases == 0
  {
    SessionInvAlways(run, actions, k);
    var s := run[k];
    if s.life.ioCount <= 0 && s.life.accept != TakeHold {
      ZeroMeansDone(s);
    }
  }

  /** At most one receive is outstanding: the accept thread before its post, the kernel, or one
      IO thread draining the ring buffer and posting the next. And its completion always finds
      the session registered, so none is dropped. */
  lemma OneReceive(run: seq<State>, actions: seq<Action>, k: nat)
    requires Behavior(run, actions) && k < |run|
    ensures var s := run[k];
      && (forall t, u :: 0 <= t < |s.threads| && 0 <= u < |s.threads| ==>
            Carries(s.threads[t]) && Carries(s.threads[u]) ==> t == u)
      && (forall t :: 0 <= t < |s.threads| && Carries(s.threads[t]) ==>
            !s.life.recvPosted && !AcceptCarries(s.life.accept))
      && (s.life.recvPosted ==> !AcceptCarries(s.life.accept))
      && !Enabled(s, OrphanRecv)
  {
    SessionInvAlways(run, actions, k);
  }

  /** A session nobody works on any more has been released, unless a completion was dropped:
      then its count never comes back to zero. */
  lemma IdleMeansReleased(run: seq<State>, actions: seq<Action>, k: nat)
    requires Behavior(run, actions) && k < |run|
    ensures var s := run[k]; var l := s.life;
      (l.accept == AcceptDone && !s.pump.posted && !l.recvPosted
       && forall t :: 0 <= t < |s.threads| ==> Waits(s.threads[t]))
      ==> l.ioCount == Orphans(actions, k) && (Orphans(actions, k) == 0 ==> l.releases > 0)
    ensures Orphans(actions, k) <= run[k].life.ioCount
  {
    SessionInvAlways(run, actions, k);
    LostExactly(run, actions, k);
    var s := run[k];
    if forall t :: 0 <= t < |s.threads| ==> Waits(s.threads[t]) {
      TotalZero(s.threads, Hold);
    }
  }

  /** How many of the first k steps of a run lower the count to zero. */
  ghost function ZeroSteps(run: seq<State>, k: nat): nat
    requires k < |run|
  {
    if k == 0 then 0
    else ZeroSteps(run, k - 1)
         + if run[k].life.ioCount < run[k - 1].life.ioCount && run[k].life.ioCount == 0 then 1 else 0
  }

  /** `ReleaseSession` has been called once for each step that brought the count to zero, and the
      count has moved by single steps. */
  lemma {:induction false} ReleasedExactly(run: seq<State>, actions: seq<Action>, k: nat)
    requires Behavior(run, actions) && k < |run|
    ensures run[k].life.releases == ZeroSteps(run, k)
    ensures k > 0 ==> run[k].life.ioCount - run[k - 1].life.ioCount in {-1, 0, 1}
  {
    if k > 0 {
      ReleasedExactly(run, actions, k - 1);
      assert StepAt(run, actions, k - 1);
      ReleaseStep(run[k - 1], actions[k - 1]);
    }
  }

  /** Once the count has come down to zero only the increment of a send can raise it again. */
  lemma RevivedOnlyBySend(run: seq<State>, actions: seq<Action>, k: nat)
    requires Behavior(run, actions) && k < |actions| && run[k].life.releases > 0
    requires run[k + 1].life.ioCount > run[k].life.ioCount
    ensures var a := actions[k]; a.Run? && a.t < |run[k].threads| && run[k].threads[a.t].CountSend?
  {
    SessionInvAlways(run, actions, k);
    assert StepAt(run, actions, k);
    RaisedBySend(run[k], actions[k]);
  }

  lemma RaisedBySend(s: State, a: Action)
    requires PastInv(s.life) && ChainInv(s.life, s.threads) && Enabled(s, a)
    requires s.life.releases > 0 && Next(s, a).life.ioCount > s.life.ioCount
    ensures a.Run? && s.threads[a.t].CountSend?
  {
    if a.Run? {
      assert !Carries(s.threads[a.t]);
    }
  }

  // ---- Exactly when a session is queued for release twice ----

  /** The increment of a send after the count first came down to zero. */
  ghost predicate Revives(s: State, a: Action) {
    a.Run? && a.t < |s.threads| && s.threads[a.t].CountSend? && s.life.releases > 0
  }

  ghost predicate Revived(run: seq<State>, actions: seq<Action>, k: nat)
    requires k < |run| == |actions| + 1
  {
    exists j :: 0 <= j < k && Revives(run[j], actions[j])
  }

  lemma NeverNegative(run: seq<State>, actions: seq<Action>, k: nat)
    requires Behavior(run, actions) && k < |run|
    ensures run[k].life.ioCount >= 0
  {
    CountExact(run, actions, k);
  }

  /** Until a send revives the count it has come down to zero at most once, and then stays there. */
  lemma {:induction false} OneKeyUnlessRevived(run: seq<State>, actions: seq<Action>, k: nat)
    requires Behavior(run, actions) && k < |run| && !Revived(run, actions, k)
    ensures run[k].life.releases <= 1
    ensures run[k].life.releases == 1 ==> run[k].life.ioCount == 0
  {
    if k > 0 {
      OneKeyUnlessRevived(run, actions, k - 1);
      ReleasedExactly(run, actions, k - 1);
      ReleasedExactly(run, actions, k);
      NeverNegative(run, actions, k);
      assert !Revives(run[k - 1], actions[k - 1]);
      if run[k - 1].life.releases > 0 && run[k].life.ioCount > run[k - 1].life.ioCount {
        RevivedOnlyBySend(run, actions, k - 1);
      }
    }
  }

  /** A count that was raised and is back at zero has come down in between. */
  lemma {:induction false} BackAtZero(run: seq<State>, actions: seq<Action>, j: nat, k: nat)
    requires Behavior(run, actions) && j <= k < |run| && run[j].life.ioCount > 0
    ensures run[j].life.releases <= run[k].life.releases
    ensures run[k].life.ioCount == 0 ==> run[j].life.releases < run[k].life.releases
    decreases k
  {
    if j < k {
      BackAtZero(run, actions, j, k - 1);
      ReleasedExactly(run, actions, k - 1);
      ReleasedExactly(run, actions, k);
      NeverNegative(run, actions, k - 1);
    }
  }

  ghost predicate AtRest(s: State) {
    && s.life.accept == AcceptDone && !s.pump.posted && !s.life.recvPosted
    && forall t :: 0 <= t < |s.threads| ==> Waits(s.threads[t])
  }

  /** In every run a second call of `ReleaseSession` needs a send that raises the count after it first came down to
      zero, and once the session is at rest, with no completion dropped, there has been a second call if and
      only if there was such a send. */
  lemma TwoKeysExactly(run: seq<State>, actions: seq<Action>, k: nat)
    requires Behavior(run, actions) && k < |run|
    ensures run[k].life.releases >= 2 ==> Revived(run, actions, k)
    ensures AtRest(run[k]) && Orphans(actions, k) == 0 ==> (run[k].life.releases >= 2 <==> Revived(run, actions, k))
  {
    if !Revived(run, actions, k) {
      OneKeyUnlessRevived(run, actions, k);
    } else if AtRest(run[k]) && Orphans(actions, k) == 0 {
      var j :| 0 <= j < k && Revives(run[j], actions[j]);
      assert StepAt(run, actions, j);
      NeverNegative(run, actions, j);
      IdleMeansReleased(run, actions, k);
      BackAtZero(run, actions, j + 1, k);
    }
  }

  // ---- A session can be queued for release twice ----

  /** The accept thread's receive fails, and the count reaches zero for the first time. */
  lemma ReachFirstKey(p: Pump)
    requires Reachable(State(p, Life(1, 0, true, AcceptCountRecv, false, 0, AtAccept), [Idle, Idle]))
    ensures Reachable(State(p, Life(0, 1, true, AcceptDone, false, 0, Ended), [Idle, Idle]))
  {
    ReachNext(State(p, Life(1, 0, true, AcceptCountRecv, false, 0, AtAccept), [Idle, Idle]), Accept(true));
    ReachNext(State(p, Life(2, 0, true, AcceptPostRecv, false, 0, AtAccept), [Idle, Idle]), Accept(false));
    ReachNext(State(p, Life(2, 0, true, AcceptRecvFailed, false, 0, Ended), [Idle, Idle]), Accept(true));
    ReachNext(State(p, Life(1, 0, true, DropHold, false, 0, Ended), [Idle, Idle]), Accept(true));
  }

  /** A send begun afterwards fails, and the count reaches zero again. */
  lemma ReachNextKey(f: Pump, l: Life)
    requires Reachable(State(f, l, [CountSend(1), Idle])) && l.ioCount == 0
    requires |f.store| == ONE_SEND_WSABUF_MAX
    ensures Reachable(State(f.(owner := FailedPost), l.(releases := l.releases + 1), [Returned(false), Idle]))
  {
    ReachNext(State(f, l, [CountSend(1), Idle]), Run(0, true));
    ReachPostFailed(f, l.(ioCount := 1));
    ReachFailureCounted(f.(owner := FailedPost), l.(ioCount := 1));
  }

  lemma ReachFailureCounted(f: Pump, l: Life)
    requires Reachable(State(f, l, [SendFailed, Idle])) && l.ioCount == 1
    ensures Reachable(State(f, l.(ioCount := 0, releases := l.releases + 1), [Returned(false), Idle]))
  {
    ReachNext(State(f, l, [SendFailed, Idle]), Run(0, true));
  }

  lemma ReachPostFailed(f: Pump, l: Life)
    requires Reachable(State(f, l, [PostSend(1), Idle])) && |f.store| == ONE_SEND_WSABUF_MAX
    ensures Reachable(State(f.(owner := FailedPost), l, [SendFailed, Idle]))
  {
    ReachNext(State(f, l, [PostSend(1), Idle]), Run(0, false));
  }

  lemma TwoReleaseKeys()
    ensures exists s: State :: Reachable(s) && s.life.releases == 2
  {
    var p := UnusedPump();
    var l := Life(0, 1, true, AcceptDone, false, 0, Ended);
    ReachInserted(p);
    ReachFirstKey(p);
    ReachNext(State(p, l, [Idle, Idle]), EnqueuePacket(0, 7));
    var q := p.(queue := [7], enqueued := [7]);
    assert p.queue + [7] == [7];
    ReachFilled(q, l, Idle);
    var f := q.(ioMode := Sending, owner := ByThread(0), queue := [], store := q.store[0 := 7], bufferCount := 1);
    ReachNextKey(f, l);
  }
}
