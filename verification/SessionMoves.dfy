/** One session's send data and the position of whoever owns it, as a machine of its own: each step of the
    session is one move of it. What a teardown does to the buffers is proved on the moves. */
module SessionMoves {
  import opened SessionSteps
  import opened SessionSends
  import opened SessionCounting

  datatype Move =
    | Own(ok: bool)
    | Acquires(t: nat)
    | Completes(t: nat, ok: bool)
    | Enqueues(b: Buffer)
    | Starts
    | Tears
    | Stays

  predicate CanMove(p: Pump, pc: Pc, mv: Move) {
    match mv
    case Own(_) => Owns(pc) && p.owner.ByThread? && p.ioMode == Sending && !p.posted && InSendCode(pc) && InRange(p, pc)
    case Acquires(_) => pc == Idle && p.owner == NoOwner && !p.posted
    // a completion is handled only while the session is registered
    case Completes(_, ok) => pc == Idle && p.owner == Kernel && (ok ==> p.disconnect == NotYet)
    case Enqueues(b) => b !in p.enqueued && b != NIL
    case Starts => p.disconnect == NotYet
    case Tears => CanDisconnect(p)
    case Stays => true
  }

  ghost function Moved(p: Pump, pc: Pc, mv: Move): (Pump, Pc)
    requires CanMove(p, pc, mv)
  {
    match mv
    case Own(ok) => var (p', pc') := SendStep(p, p.owner.t, pc, ok); (p', PcAfter(p', p.owner.t, pc'))
    case Acquires(t) => (p.(ioMode := Sending, owner := ByThread(t)), ReadSize(NoneSending))
    case Completes(t, ok) =>
      (p.(posted := false, owner := if ok then ByThread(t) else FailedCompletion), if ok then FreeStore(0) else Idle)
    case Enqueues(b) => (p.(queue := p.queue + [b], enqueued := p.enqueued + [b]), pc)
    case Starts => (p.(disconnect := FreeingStore(0)), pc)
    case Tears => (Disconnecting(p), pc)
    case Stays => (p, pc)
  }

  ghost function MoveOf(s: State, a: Action): Move {
    match a
    case Run(t, ok) =>
      if t < |s.threads| && Owns(s.threads[t]) then Own(ok)
      else if t < |s.threads| && s.threads[t] == Acquire(NoneSending) && s.pump.ioMode == NoneSending then Acquires(t)
      else Stays
    case SendCompletion(t, ok) => Completes(t, ok)
    case OrphanSend => Completes(0, false)
    case EnqueuePacket(_, b) => Enqueues(b)
    case Erase => Starts
    case TeardownStep => Tears
    case _ => Stays
  }

  ghost function PcOf(s: State): Pc {
    OwnerPc(s.pump, s.threads)
  }

  lemma RunMoves(s: State, t: nat, ok: bool)
    requires SafeInv(s) && Enabled(s, Run(t, ok)) && InSendCode(s.threads[t])
    ensures var s', mv := Next(s, Run(t, ok)), MoveOf(s, Run(t, ok));
      CanMove(s.pump, PcOf(s), mv) && Moved(s.pump, PcOf(s), mv) == (s'.pump, PcOf(s'))
  {
    OwnerSendStep(s.pump, s.threads, t, ok);
    if Owns(s.threads[t]) {
      OwnerLogs(s.pump, t, s.threads[t], ok);
    } else {
      VisitorStep(s.pump, t, s.threads[t], ok);
    }
  }

  /** Every step of a session is a move of its send side. */
  lemma StepMoves(s: State, a: Action)
    requires SafeInv(s) && GoneInv(s) && Enabled(s, a)
    ensures var s', mv := Next(s, a), MoveOf(s, a);
      CanMove(s.pump, PcOf(s), mv) && Moved(s.pump, PcOf(s), mv) == (s'.pump, PcOf(s'))
  {
    if a.Run? && InSendCode(s.threads[a.t]) {
      RunMoves(s, a.t, a.ok);
    } else if a.SendCompletion? {
      OwnerMove(s.pump, s.threads, NextPump(s, a), a.t, Next(s, a).threads[a.t]);
    } else if a != OrphanSend {
      OtherOwnerPc(s, a);
    }
  }

  lemma RunStepMoves(run: seq<State>, actions: seq<Action>, k: nat)
    requires Behavior(run, actions) && k < |actions|
    ensures SafeInv(run[k]) && SendInv(run[k])
    ensures var mv := MoveOf(run[k], actions[k]);
      && CanMove(run[k].pump, PcOf(run[k]), mv)
      && Moved(run[k].pump, PcOf(run[k]), mv) == (run[k + 1].pump, PcOf(run[k + 1]))
  {
    SendInvAlways(run, actions, k);
    SessionInvAlways(run, actions, k);
    assert StepAt(run, actions, k);
    StepMoves(run[k], actions[k]);
  }
}
