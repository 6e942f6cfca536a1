/** One session shared by the accept thread, the IO threads, the logic threads and
    its release thread, as a system of atomic steps.
    Every step is one read-modify-write of an atomic, one queue operation, one
    statement of the send owner or of the teardown on the store and its count, or
    one foreign call whose outcome the environment chooses. */
module SessionSteps {
  import opened Common

  const ONE_SEND_WSABUF_MAX: nat := 20

  type Buffer = nat

  /** What a place of the store holds until it is first written. */
  const NIL: Buffer := 0

  datatype IoMode = NoneSending | Sending

  /** Where a thread stands inside `SendPacket`, `DoSend`, `DoRecv` or a completion handler.
      A pc names the statement the thread executes next. */
  datatype Pc =
    | Idle
    // idle again, the last `DoSend` having returned this
    | Returned(ok: bool)
    // Session::DoSend
    | Acquire(expected: IoMode)
    | ReadSize(expected: IoMode)
    | EmptyRelease(expected: IoMode)
    | Fill(i: nat, n: nat)
    | AddCount(n: nat)
    | CountSend(n: nat)
    | PostSend(n: nat)
    | SendFailed
    // ServerCore::OnSendIoCompleted
    | FreeStore(i: nat)
    | FreePlace(i: nat)
    | ResetCount
    | ReleaseMode
    | RetireSend
    // a send completion that failed or moved no bytes
    | DropSend
    // ServerCore::OnRecvIoCompleted and Session::DoRecv
    | DrainRecv
    | CountRecv
    | PostRecv
    | RecvFailed
    | RetireRecv

  /** Where the accept thread stands in the loop body that created this session. */
  datatype AcceptPc =
    | TakeHold
    | Associate
    | AssociateFailed
    | Insert
    | AcceptCountRecv
    | AcceptPostRecv
    | AcceptRecvFailed
    | DropHold
    | AcceptDone

  /** History: who set `ioMode` to Sending and has not handed it back. */
  datatype Owner = NoOwner | ByThread(t: nat) | Kernel | FailedPost | FailedCompletion

  /** History: who carries the chain of receives. */
  datatype Chain = AtAccept | InKernel | AtThread(t: nat) | Ended

  /** Where the release thread stands in `OnDisconnected`, having freed i stored buffers: at the test of its loop
      over the store, at the free in it, at the reset of the count, in its loop over the queue, past it. */
  datatype DisconnectPc =
    | NotYet
    | FreeingStore(i: nat)
    | FreeingPlace(i: nat)
    | ResettingCount(i: nat)
    | DrainingQueue(i: nat)
    | Disconnected(i: nat)

  /** `Session::SendIOData`, with its history. */
  datatype Pump = Pump(
    ioMode: IoMode,
    queue: seq<Buffer>,
    store: seq<Buffer>,
    bufferCount: int,
    posted: bool,
    disconnect: DisconnectPc,
    // history
    owner: Owner,
    enqueued: seq<Buffer>,
    wire: seq<seq<Buffer>>,
    freed: seq<Buffer>)

  /** The IO count, what the session registry knows of the session, and the receive in flight. */
  datatype Life = Life(
    ioCount: int,
    /** How often the count has come down to zero; each time `ReleaseSession` is called and queues a key. */
    releases: nat,
    registered: bool,
    accept: AcceptPc,
    recvPosted: bool,
    lost: nat,
    // history
    chain: Chain)

  datatype State = State(pump: Pump, life: Life, threads: seq<Pc>)

  datatype Action =
    | EnqueuePacket(t: nat, b: Buffer)
    | Run(t: nat, ok: bool)
    | SendCompletion(t: nat, ok: bool)
    | RecvCompletion(t: nat, ok: bool)
    | OrphanSend
    | OrphanRecv
    | Accept(ok: bool)
    | Erase
    | TeardownStep

  ghost predicate Init(s: State) {
    && s.pump.ioMode == NoneSending && s.pump.queue == [] && s.pump.bufferCount == 0 && !s.pump.posted
    && |s.pump.store| == ONE_SEND_WSABUF_MAX && (forall i :: 0 <= i < |s.pump.store| ==> s.pump.store[i] == NIL)
    && s.pump.owner == NoOwner && s.pump.enqueued == [] && s.pump.wire == [] && s.pump.freed == []
    && s.pump.disconnect == NotYet
    && s.life == Life(0, 0, false, TakeHold, false, 0, AtAccept)
    && forall t :: 0 <= t < |s.threads| ==> s.threads[t] == Idle
  }

  /** The array accesses of the next statement stay inside the store. */
  predicate InRange(p: Pump, pc: Pc) {
    match pc
    case Fill(i, n) => i < n ==> i < |p.store|
    case PostSend(n) => n <= |p.store|
    case FreePlace(i) => i < |p.store|
    case _ => true
  }

  /** The thread is in no call. */
  predicate Waits(pc: Pc) {
    pc.Idle? || pc.Returned?
  }

  /** True inside `DoSend` and inside `OnSendIoCompleted`. */
  predicate InSendCode(pc: Pc) {
    match pc
    case Idle | Returned(_) | DropSend | DrainRecv | CountRecv | PostRecv | RecvFailed | RetireRecv => false
    case _ => true
  }

  /** What one statement of `DoSend` or `OnSendIoCompleted` does to the send data, and where
      the thread stands afterwards. `ok` is the outcome of `WSASend`. */
  function SendStep(p: Pump, t: nat, pc: Pc, ok: bool): (Pump, Pc)
    requires InSendCode(pc) && InRange(p, pc)
  {
    match pc
    case Acquire(e) =>
      if p.ioMode == e then (p.(ioMode := Sending, owner := ByThread(t)), ReadSize(e)) else (p, Returned(true))
    case ReadSize(e) =>
      (p, if p.queue == [] then EmptyRelease(e) else Fill(0, Min(ONE_SEND_WSABUF_MAX, |p.queue|)))
    case EmptyRelease(e) =>
      if p.ioMode == e then (p.(ioMode := NoneSending, owner := NoOwner), Returned(true))
      else (p, Acquire(p.ioMode))
    case Fill(i, n) =>
      if i >= n then (p, AddCount(n))
      else if p.queue == [] then (p, Fill(i + 1, n))
      else (p.(store := p.store[i := p.queue[0]], queue := p.queue[1..]), Fill(i + 1, n))
    case AddCount(n) => (p.(bufferCount := p.bufferCount + n), CountSend(n))
    case CountSend(n) => (p, PostSend(n))
    case PostSend(n) =>
      if ok then (p.(posted := true, owner := Kernel, wire := p.wire + [p.store[..n]]), Returned(true))
      else (p.(owner := FailedPost), SendFailed)
    case SendFailed => (p, Returned(false))
    case FreeStore(i) => (p, if i < p.bufferCount then FreePlace(i) else ResetCount)
    case FreePlace(i) => (p.(freed := p.freed + [p.store[i]]), FreeStore(i + 1))
    case ResetCount => (p.(bufferCount := 0), ReleaseMode)
    case ReleaseMode => (p.(ioMode := NoneSending, owner := NoOwner), RetireSend)
    case RetireSend => (p, Acquire(NoneSending))
  }

  /** Where a thread outside the send code goes next; `ok` is the outcome of the drain loop or of `WSARecv`. */
  function RecvNext(pc: Pc, ok: bool): Pc {
    match pc
    case DrainRecv => if ok then CountRecv else RetireRecv
    case CountRecv => PostRecv
    case PostRecv => if ok then RetireRecv else RecvFailed
    case RecvFailed => RetireRecv
    case _ => Idle
  }

  /** `DecreaseIOCount`: the decrement, and `ReleaseSession` when it reaches zero. */
  function Decrease(l: Life): Life {
    l.(ioCount := l.ioCount - 1, releases := if l.ioCount - 1 == 0 then l.releases + 1 else l.releases)
  }

  /** What the statement at `pc` does to the IO count and the receive in flight. */
  function LifeStep(l: Life, pc: Pc, ok: bool): Life {
    match pc
    case CountSend(_) | CountRecv => l.(ioCount := l.ioCount + 1)
    case SendFailed | RetireSend | DropSend | RecvFailed | RetireRecv => Decrease(l)
    case DrainRecv => if ok then l else l.(chain := Ended)
    case PostRecv => if ok then l.(recvPosted := true, chain := InKernel) else l.(chain := Ended)
    case _ => l
  }

  /** The loop body of `RunAcceptThread`, one statement at a time. */
  function AcceptStep(l: Life, ok: bool): Life {
    match l.accept
    case TakeHold => l.(accept := Associate, ioCount := l.ioCount + 1)
    case Associate => if ok then l.(accept := Insert) else l.(accept := AssociateFailed, chain := Ended)
    case AssociateFailed => Decrease(l.(accept := AcceptDone))
    case Insert => l.(accept := AcceptCountRecv, registered := true)
    case AcceptCountRecv => l.(accept := AcceptPostRecv, ioCount := l.ioCount + 1)
    case AcceptPostRecv =>
      if ok then l.(accept := DropHold, recvPosted := true, chain := InKernel)
      else l.(accept := AcceptRecvFailed, chain := Ended)
    case AcceptRecvFailed => Decrease(l.(accept := DropHold))
    case DropHold => Decrease(l.(accept := AcceptDone))
    case AcceptDone => l
  }

  predicate InTeardown(p: Pump) {
    p.disconnect != NotYet && !p.disconnect.Disconnected?
  }

  /** Its next statement exists, and stays inside the store. */
  predicate CanDisconnect(p: Pump) {
    InTeardown(p) && (p.disconnect.FreeingPlace? ==> p.disconnect.i < |p.store|)
  }

  /** A statement of `OnDisconnected`: the test or the free of its loop over the store, the reset, or one turn
      of its loop over the queue. */
  function Disconnecting(p: Pump): Pump
    requires CanDisconnect(p)
  {
    match p.disconnect
    case FreeingStore(i) => p.(disconnect := if i < p.bufferCount then FreeingPlace(i) else ResettingCount(i))
    case FreeingPlace(i) => p.(freed := p.freed + [p.store[i]], disconnect := FreeingStore(i + 1))
    case ResettingCount(i) => p.(bufferCount := 0, disconnect := DrainingQueue(i))
    case DrainingQueue(i) =>
      if p.queue == [] then p.(disconnect := Disconnected(i))
      else p.(freed := p.freed + [p.queue[0]], queue := p.queue[1..])
  }

  predicate IsIdle(s: State, t: nat) {
    t < |s.threads| && Waits(s.threads[t])
  }

  predicate Enabled(s: State, a: Action) {
    match a
    case EnqueuePacket(t, b) => IsIdle(s, t) && s.life.accept != TakeHold && b !in s.pump.enqueued && b != NIL
    case Run(t, _) => t < |s.threads| && !Waits(s.threads[t]) && InRange(s.pump, s.threads[t])
    case SendCompletion(t, _) => IsIdle(s, t) && s.pump.posted && s.life.registered
    case RecvCompletion(t, _) => IsIdle(s, t) && s.life.recvPosted && s.life.registered
    case OrphanSend => s.pump.posted && !s.life.registered
    case OrphanRecv => s.life.recvPosted && !s.life.registered
    case Accept(_) => s.life.accept != AcceptDone
    // the last conjunct excludes nothing: no session is registered twice
    case Erase => s.life.registered && s.life.releases > 0 && s.pump.disconnect == NotYet
    case TeardownStep => CanDisconnect(s.pump)
  }

  function NextPump(s: State, a: Action): Pump
    requires Enabled(s, a)
  {
    var p := s.pump;
    match a
    case EnqueuePacket(_, b) => p.(queue := p.queue + [b], enqueued := p.enqueued + [b])
    case Run(t, ok) => if InSendCode(s.threads[t]) then SendStep(p, t, s.threads[t], ok).0 else p
    case SendCompletion(t, ok) => p.(posted := false, owner := if ok then ByThread(t) else FailedCompletion)
    case OrphanSend => p.(posted := false, owner := FailedCompletion)
    // the thread that erases a session goes on to disconnect it, and waits for nobody
    case Erase => p.(disconnect := FreeingStore(0))
    case TeardownStep => Disconnecting(p)
    case _ => p
  }

  function NextLife(s: State, a: Action): Life
    requires Enabled(s, a)
  {
    var l := s.life;
    match a
    case Run(t, ok) => LifeStep(l, s.threads[t], ok)
    case RecvCompletion(t, ok) => l.(recvPosted := false, chain := if ok then AtThread(t) else Ended)
    case OrphanSend => l.(lost := l.lost + 1)
    case OrphanRecv => l.(recvPosted := false, chain := Ended, lost := l.lost + 1)
    case Accept(ok) => AcceptStep(l, ok)
    case Erase => l.(registered := false)
    case _ => l
  }

  /** The thread that acts and the pc it moves to, if the action belongs to a thread. */
  function NextPc(s: State, a: Action): Option<(nat, Pc)>
    requires Enabled(s, a)
  {
    match a
    case EnqueuePacket(t, _) => Some((t, Acquire(NoneSending)))
    case Run(t, ok) =>
      var pc := s.threads[t];
      Some((t, if InSendCode(pc) then SendStep(s.pump, t, pc, ok).1 else RecvNext(pc, ok)))
    case SendCompletion(t, ok) => Some((t, if ok then FreeStore(0) else DropSend))
    case RecvCompletion(t, ok) => Some((t, if ok then DrainRecv else RetireRecv))
    case _ => None
  }

  function NextThreads(s: State, a: Action): (threads: seq<Pc>)
    requires Enabled(s, a)
    ensures |threads| == |s.threads|
  {
    match NextPc(s, a)
    case Some((t, pc)) => if t < |s.threads| then s.threads[t := pc] else s.threads
    case None => s.threads
  }

  function Next(s: State, a: Action): State
    requires Enabled(s, a)
  {
    State(NextPump(s, a), NextLife(s, a), NextThreads(s, a))
  }

  /** A run: the states passed through, each one step after the one before it. */
  ghost predicate Behavior(run: seq<State>, actions: seq<Action>) {
    && |run| == |actions| + 1
    && Init(run[0])
    && forall k :: 0 <= k < |actions| ==> StepAt(run, actions, k)
  }

  ghost predicate StepAt(run: seq<State>, actions: seq<Action>, k: nat)
    requires k < |actions| && |run| == |actions| + 1
  {
    Enabled(run[k], actions[k]) && run[k + 1] == Next(run[k], actions[k])
  }
}
