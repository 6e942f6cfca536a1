/** From received bytes to executed handlers: the session's IO threads and its logic thread together.
    The receive path of SessionSteps is refined: while an IO thread stands at the drain loop it takes
    frames off the ring and sends the messages to the session's own mailbox, in separate steps. */
module EndToEnd {
  import opened Common
  import opened Framing
  import opened ServerFraming
  import opened ServedStream
  import opened Frames
  import S = SessionSteps
  import Counting = SessionCounting
  import Mail = Mailbox

  /** A message of the session's mailbox: from the network, or from an actor. */
  datatype Origin = Net(message: Message) | Local(id: nat)

  datatype State = State(
    session: S.State,
    box: Mail.Box<Origin>,
    ring: seq<Byte>,
    /** The message an IO thread has built and not yet sent. */
    held: seq<Option<Message>>,
    // history
    received: seq<seq<Byte>>,
    taken: seq<Message>)

  datatype Action =
    | Other(a: S.Action)
    | Receive(t: nat, chunk: seq<Byte>)
    | Take(t: nat)
    | Send(t: nat, sawStopped: bool)
    | DrainDone(t: nat)
    | Actor(b: Mail.Action<Origin>)

  predicate IsDraining(s: State, t: nat) {
    t < |s.session.threads| && t < |s.held| && s.session.threads[t] == S.DrainRecv
  }

  ghost predicate Enabled(f: Format, s: State, a: Action)
    requires WellFormed(f)
  {
    match a
    case Other(b) =>
      S.Enabled(s.session, b)
      && !(b.RecvCompletion? && b.ok)
      && !(b.Run? && s.session.threads[b.t] == S.DrainRecv)
    case Receive(t, chunk) =>
      S.Enabled(s.session, S.RecvCompletion(t, true)) && chunk != []
    case Take(t) => IsDraining(s, t) && s.held[t].None? && |s.ring| > f.header
    case Send(t, saw) => IsDraining(s, t) && s.held[t].Some? && (saw ==> s.box.stopped)
    case DrainDone(t) => IsDraining(s, t) && s.held[t].None? && |s.ring| <= f.header
    case Actor(b) => Mail.Enabled(s.box, b) && (b.Check? && b.message.Some? ==> b.message.value.Local?)
  }

  function Drained(s: S.State, t: nat, ok: bool): S.State
    requires t < |s.threads| && s.threads[t] == S.DrainRecv
  {
    S.Next(s, S.Run(t, ok))
  }

  ghost function Next(f: Format, interpret: Interpreter, s: State, a: Action): State
    requires WellFormed(f) && Enabled(f, s, a)
  {
    match a
    case Other(b) => s.(session := S.Next(s.session, b))
    case Receive(t, chunk) =>
      s.(session := S.Next(s.session, S.RecvCompletion(t, true)), ring := s.ring + chunk,
         received := s.received + [chunk])
    case Take(t) =>
      (match ServePass(f, interpret, false, s.ring)
       case Rejected(rest) => s.(session := Drained(s.session, t, false), ring := rest)
       case Accepted(m, rest) =>
         s.(ring := rest, held := s.held[t := Some(m)], taken := s.taken + [m]))
    case Send(t, saw) =>
      if saw then s.(session := Drained(s.session, t, false), held := s.held[t := None])
      else
        var message := Some(Net(s.held[t].value));
        s.(held := s.held[t := None],
           box := s.box.(storeQueue := s.box.storeQueue + [message], accepted := s.box.accepted + [message]))
    case DrainDone(t) => s.(session := Drained(s.session, t, true))
    case Actor(b) => s.(box := Mail.Next(s.box, b))
  }

  ghost predicate Init(s: State) {
    && S.Init(s.session) && Mail.Init(s.box)
    && s.ring == [] && s.received == [] && s.taken == []
    && |s.held| == |s.session.threads| && forall t :: 0 <= t < |s.held| ==> s.held[t].None?
  }

  // ---- The invariant ----

  function NetOf(origins: seq<Origin>): seq<Message> {
    if origins == [] then []
    else
      var last := origins[|origins| - 1];
      NetOf(origins[..|origins| - 1]) + if last.Net? then [last.message] else []
  }

  /** The network messages accepted by the mailbox so far. */
  function AcceptedNet(b: Mail.Box<Origin>): seq<Message> {
    NetOf(Mail.Functions(b.accepted))
  }

  /** The one thread that holds a message carries the chain of receives. */
  ghost predicate HeldInv(s: State) {
    && |s.held| == |s.session.threads|
    && forall t :: 0 <= t < |s.held| && s.held[t].Some? ==> s.session.threads[t] == S.DrainRecv
  }

  ghost function HeldMessage(s: State): seq<Message> {
    var c := s.session.life.chain;
    if c.AtThread? && c.t < |s.held| && s.held[c.t].Some? then [s.held[c.t].value] else []
  }

  ghost predicate OnlyLocalSenders(b: Mail.Box<Origin>) {
    forall i :: 0 <= i < |b.senders| && b.senders[i].Passed? && b.senders[i].message.Some? ==>
      b.senders[i].message.value.Local?
  }

  /** What serving the rest of the ring will make of the messages taken already. */
  ghost predicate Resumes(f: Format, interpret: Interpreter, whole: Served, taken: seq<Message>, ring: seq<Byte>)
    requires WellFormed(f)
  {
    var later := ServeAll(f, interpret, false, ring);
    whole == Served(taken + later.messages, later.rest, later.ok)
  }

  /** Everything taken is part of what the server makes of its receives. Until the chain of receives ends
      it has been accepted or is held, and the ring is what is still to be served. */
  ghost predicate FlowInv(f: Format, interpret: Interpreter, s: State)
    requires WellFormed(f)
  {
    var whole := ServeChunks(f, interpret, s.received);
    && AcceptedNet(s.box) <= s.taken <= whole.messages
    && (s.session.life.chain != S.Ended ==>
          && s.taken == AcceptedNet(s.box) + HeldMessage(s)
          && Resumes(f, interpret, whole, s.taken, s.ring)
          && (!DrainerAtWork(s) ==> |s.ring| <= f.header))
  }

  /** An IO thread stands at the drain loop. */
  ghost predicate DrainerAtWork(s: State) {
    var c := s.session.life.chain;
    c.AtThread? && c.t < |s.session.threads| && s.session.threads[c.t] == S.DrainRecv
  }

  // ---- Mailbox steps ----

  lemma NetOfSnoc(origins: seq<Origin>, last: Origin)
    ensures NetOf(origins + [last]) == NetOf(origins) + if last.Net? then [last.message] else []
  {
    assert (origins + [last])[..|origins|] == origins;
  }

  lemma AcceptedSnoc(accepted: seq<Option<Origin>>, m: Option<Origin>)
    ensures NetOf(Mail.Functions(accepted + [m]))
         == NetOf(Mail.Functions(accepted)) + if m.Some? && m.value.Net? then [m.value.message] else []
  {
    assert (accepted + [m])[..|accepted|] == accepted;
    if m.Some? {
      NetOfSnoc(Mail.Functions(accepted), m.value);
    } else {
      assert Mail.Functions(accepted) + [] == Mail.Functions(accepted);
    }
  }

  lemma ActorStepKeepsNet(b: Mail.Box<Origin>, a: Mail.Action<Origin>)
    requires OnlyLocalSenders(b) && Mail.Enabled(b, a)
    requires a.Check? && a.message.Some? ==> a.message.value.Local?
    ensures OnlyLocalSenders(Mail.Next(b, a)) && AcceptedNet(Mail.Next(b, a)) == AcceptedNet(b)
  {
    if a.Push? {
      AcceptedSnoc(b.accepted, b.senders[a.i].message);
    }
  }

  lemma SendKeepsBox(b: Mail.Box<Origin>, m: Message, b': Mail.Box<Origin>)
    requires Mail.BoxInv(b) && OnlyLocalSenders(b)
    requires b' == b.(storeQueue := b.storeQueue + [Some(Net(m))], accepted := b.accepted + [Some(Net(m))])
    ensures Mail.BoxInv(b') && OnlyLocalSenders(b') && AcceptedNet(b') == AcceptedNet(b) + [m]
  {
    AcceptedSnoc(b.accepted, Some(Net(m)));
    assert b.consumed + b.consumerQueue + (b.storeQueue + [Some(Net(m))])
        == b.consumed + b.consumerQueue + b.storeQueue + [Some(Net(m))];
  }

  // ---- Receive steps ----

  /** Between receives there is nothing to serve in the ring, so a receive resumes with it and the chunk. */
  lemma ResumesReceive(f: Format, interpret: Interpreter, chunks: seq<seq<Byte>>, taken: seq<Message>,
                       ring: seq<Byte>, chunk: seq<Byte>)
    requires WellFormed(f) && |ring| <= f.header
    requires Resumes(f, interpret, ServeChunks(f, interpret, chunks), taken, ring)
    ensures Resumes(f, interpret, ServeChunks(f, interpret, chunks + [chunk]), taken, ring + chunk)
    ensures taken <= ServeChunks(f, interpret, chunks + [chunk]).messages
  {
    assert (chunks + [chunk])[..|chunks|] == chunks;
    assert taken + [] == taken;
  }

  /** A pass that takes a message. */
  lemma ResumesTake(f: Format, interpret: Interpreter, whole: Served, taken: seq<Message>, ring: seq<Byte>)
    requires WellFormed(f) && |ring| > f.header && Resumes(f, interpret, whole, taken, ring)
    requires ServePass(f, interpret, false, ring).Accepted?
    ensures var p := ServePass(f, interpret, false, ring);
      Resumes(f, interpret, whole, taken + [p.message], p.rest) && taken + [p.message] <= whole.messages
  {
    var p := ServePass(f, interpret, false, ring);
    var later := ServeAll(f, interpret, false, p.rest).messages;
    assert taken + ([p.message] + later) == taken + [p.message] + later;
  }

  /** A thread at the drain loop carries the chain, alone. */
  lemma DrainerCarries(s: State, t: nat)
    requires Counting.ChainInv(s.session.life, s.session.threads) && IsDraining(s, t)
    ensures s.session.life.chain == S.AtThread(t)
  {
    assert Counting.Carries(s.session.threads[t]);
  }

  ghost predicate ChainOf(s: State) {
    Counting.ChainInv(s.session.life, s.session.threads)
  }

  /** The parts of the invariant that concern the flow of messages. */
  ghost predicate Flows(f: Format, interpret: Interpreter, s: State)
    requires WellFormed(f)
  {
    ChainOf(s) && HeldInv(s) && OnlyLocalSenders(s.box) && FlowInv(f, interpret, s)
  }

  lemma EndedForGood(s: S.State, a: S.Action)
    requires Counting.ChainInv(s.life, s.threads) && S.Enabled(s, a) && s.life.chain == S.Ended
    ensures S.Next(s, a).life.chain == S.Ended
  {
  }

  /** A session step elsewhere leaves a thread at the drain loop where it is. */
  lemma ElsewhereStays(s: S.State, a: S.Action, t: nat)
    requires S.Enabled(s, a) && !(a.Run? && s.threads[a.t] == S.DrainRecv)
    requires t < |s.threads| && s.threads[t] == S.DrainRecv
    ensures S.Next(s, a).threads[t] == S.DrainRecv
  {
  }

  lemma OtherFlows(f: Format, interpret: Interpreter, s: State, a: S.Action)
    requires WellFormed(f) && Flows(f, interpret, s) && Enabled(f, s, Other(a))
    ensures Flows(f, interpret, Next(f, interpret, s, Other(a)))
  {
    var s' := Next(f, interpret, s, Other(a));
    Counting.ChainStep(s.session, a);
    forall t | 0 <= t < |s.held| && s.held[t].Some?
      ensures s'.session.threads[t] == S.DrainRecv
      ensures s.session.life.chain == S.AtThread(t) && s'.session.life.chain == S.AtThread(t)
    {
      ElsewhereStays(s.session, a, t);
      DrainerCarries(s, t);
      DrainerCarries(s', t);
    }
    if s.session.life.chain == S.Ended {
      EndedForGood(s.session, a);
    } else {
      assert HeldMessage(s') == HeldMessage(s);
      WorkerStays(s.session, a, s'.session);
    }
  }

  /** A session step elsewhere does not take the drain loop's thread away from it. */
  lemma WorkerStays(s: S.State, a: S.Action, s': S.State)
    requires Counting.ChainInv(s.life, s.threads) && S.Enabled(s, a) && s' == S.Next(s, a)
    requires Counting.ChainInv(s'.life, s'.threads)
    requires !(a.Run? && s.threads[a.t] == S.DrainRecv)
    ensures s.life.chain.AtThread? && s.threads[s.life.chain.t] == S.DrainRecv ==> s'.life.chain == s.life.chain
  {
    if s.life.chain.AtThread? && s.threads[s.life.chain.t] == S.DrainRecv {
      ElsewhereStays(s, a, s.life.chain.t);
      assert Counting.Carries(s'.threads[s.life.chain.t]);
    }
  }

  lemma ReceiveFlows(f: Format, interpret: Interpreter, s: State, t: nat, chunk: seq<Byte>)
    requires WellFormed(f) && Flows(f, interpret, s) && Enabled(f, s, Receive(t, chunk))
    ensures Flows(f, interpret, Next(f, interpret, s, Receive(t, chunk)))
  {
    var s' := Next(f, interpret, s, Receive(t, chunk));
    Counting.ChainStep(s.session, S.RecvCompletion(t, true));
    assert s.session.life.chain == S.InKernel;
    ResumesReceive(f, interpret, s.received, s.taken, s.ring, chunk);
    assert HeldMessage(s) == [] == HeldMessage(s');
  }

  lemma TakeFlows(f: Format, interpret: Interpreter, s: State, t: nat)
    requires WellFormed(f) && Flows(f, interpret, s) && Enabled(f, s, Take(t))
    ensures Flows(f, interpret, Next(f, interpret, s, Take(t)))
  {
    var s' := Next(f, interpret, s, Take(t));
    DrainerCarries(s, t);
    match ServePass(f, interpret, false, s.ring)
    case Rejected(_) => Counting.ChainStep(s.session, S.Run(t, false));
    case Accepted(m, rest) => TakenFlows(f, interpret, s, t, s');
  }

  lemma TakenFlows(f: Format, interpret: Interpreter, s: State, t: nat, s': State)
    requires WellFormed(f) && Flows(f, interpret, s) && Enabled(f, s, Take(t)) && s.session.life.chain == S.AtThread(t)
    requires ServePass(f, interpret, false, s.ring).Accepted? && s' == Next(f, interpret, s, Take(t))
    ensures Flows(f, interpret, s')
  {
    var m := ServePass(f, interpret, false, s.ring).message;
    ResumesTake(f, interpret, ServeChunks(f, interpret, s.received), s.taken, s.ring);
    assert HeldMessage(s) == [] && HeldMessage(s') == [m];
  }

  lemma SendFlows(f: Format, interpret: Interpreter, s: State, t: nat, saw: bool)
    requires WellFormed(f) && Flows(f, interpret, s) && Mail.BoxInv(s.box) && Enabled(f, s, Send(t, saw))
    ensures Flows(f, interpret, Next(f, interpret, s, Send(t, saw)))
  {
    var s' := Next(f, interpret, s, Send(t, saw));
    DrainerCarries(s, t);
    if saw {
      Counting.ChainStep(s.session, S.Run(t, false));
    } else {
      SentFlows(f, interpret, s, t, s');
    }
  }

  lemma SentFlows(f: Format, interpret: Interpreter, s: State, t: nat, s': State)
    requires WellFormed(f) && Flows(f, interpret, s) && Mail.BoxInv(s.box) && Enabled(f, s, Send(t, false))
    requires s.session.life.chain == S.AtThread(t) && s' == Next(f, interpret, s, Send(t, false))
    ensures Flows(f, interpret, s')
  {
    SendKeepsBox(s.box, s.held[t].value, s'.box);
    assert HeldMessage(s) == [s.held[t].value] && HeldMessage(s') == [];
  }

  lemma DrainDoneFlows(f: Format, interpret: Interpreter, s: State, t: nat)
    requires WellFormed(f) && Flows(f, interpret, s) && Enabled(f, s, DrainDone(t))
    ensures Flows(f, interpret, Next(f, interpret, s, DrainDone(t)))
  {
    DrainerCarries(s, t);
    Counting.ChainStep(s.session, S.Run(t, true));
  }

  lemma ActorFlows(f: Format, interpret: Interpreter, s: State, a: Mail.Action<Origin>)
    requires WellFormed(f) && Flows(f, interpret, s) && Enabled(f, s, Actor(a))
    ensures Flows(f, interpret, Next(f, interpret, s, Actor(a)))
  {
    ActorStepKeepsNet(s.box, a);
  }

  // ---- Over every run ----

  ghost predicate Inv(f: Format, interpret: Interpreter, s: State)
    requires WellFormed(f)
  {
    Flows(f, interpret, s) && Mail.BoxInv(s.box)
  }

  lemma BoxStays(f: Format, interpret: Interpreter, s: State, a: Action)
    requires WellFormed(f) && Inv(f, interpret, s) && Enabled(f, s, a)
    ensures Mail.BoxInv(Next(f, interpret, s, a).box)
  {
    match a
    case Actor(b) => Mail.BoxStep(s.box, b);
    case Send(t, saw) => if !saw { SendKeepsBox(s.box, s.held[t].value, Next(f, interpret, s, a).box); }
    case _ =>
  }

  lemma InvStep(f: Format, interpret: Interpreter, s: State, a: Action)
    requires WellFormed(f) && Inv(f, interpret, s) && Enabled(f, s, a)
    ensures Inv(f, interpret, Next(f, interpret, s, a))
  {
    BoxStays(f, interpret, s, a);
    match a
    case Other(b) => OtherFlows(f, interpret, s, b);
    case Receive(t, chunk) => ReceiveFlows(f, interpret, s, t, chunk);
    case Take(t) => TakeFlows(f, interpret, s, t);
    case Send(t, saw) => SendFlows(f, interpret, s, t, saw);
    case DrainDone(t) => DrainDoneFlows(f, interpret, s, t);
    case Actor(b) => ActorFlows(f, interpret, s, b);
  }

  ghost predicate Behavior(f: Format, interpret: Interpreter, run: seq<State>, actions: seq<Action>)
    requires WellFormed(f)
  {
    && |run| == |actions| + 1 && Init(run[0])
    && forall k :: 0 <= k < |actions| ==> StepAt(f, interpret, run, actions, k)
  }

  ghost predicate StepAt(f: Format, interpret: Interpreter, run: seq<State>, actions: seq<Action>, k: nat)
    requires WellFormed(f) && k < |actions| && |run| == |actions| + 1
  {
    Enabled(f, run[k], actions[k]) && run[k + 1] == Next(f, interpret, run[k], actions[k])
  }

  lemma InitInv(f: Format, interpret: Interpreter, s: State)
    requires WellFormed(f) && Init(s)
    ensures Inv(f, interpret, s)
  {
    assert Counting.ChainInv(s.session.life, s.session.threads);
  }

  lemma {:induction false} InvAlways(
      f: Format, interpret: Interpreter, run: seq<State>, actions: seq<Action>, k: nat)
    requires WellFormed(f) && Behavior(f, interpret, run, actions) && k < |run|
    ensures Inv(f, interpret, run[k])
  {
    if k == 0 {
      InitInv(f, interpret, run[0]);
    } else {
      InvAlways(f, interpret, run, actions, k - 1);
      assert StepAt(f, interpret, run, actions, k - 1);
      InvStep(f, interpret, run[k - 1], actions[k - 1]);
    }
  }

  /** Each step is a step of the session machine or leaves the session alone. */
  lemma RefinesSession(f: Format, interpret: Interpreter, s: State, a: Action)
    requires WellFormed(f) && Enabled(f, s, a)
    ensures var s' := Next(f, interpret, s, a);
      s'.session == s.session || exists b :: S.Enabled(s.session, b) && s'.session == S.Next(s.session, b)
  {
    var s' := Next(f, interpret, s, a);
    if s'.session != s.session {
      match a
      case Other(b) => assert s'.session == S.Next(s.session, b);
      case Receive(t, _) => assert s'.session == S.Next(s.session, S.RecvCompletion(t, true));
      case Take(t) => assert s'.session == S.Next(s.session, S.Run(t, false));
      case Send(t, _) => assert s'.session == S.Next(s.session, S.Run(t, false));
      case DrainDone(t) => assert s'.session == S.Next(s.session, S.Run(t, true));
    }
  }

  lemma SessionExtended(srun: seq<S.State>, sactions: seq<S.Action>, b: S.Action, s': S.State)
    requires S.Behavior(srun, sactions) && S.Enabled(srun[|sactions|], b) && s' == S.Next(srun[|sactions|], b)
    ensures S.Behavior(srun + [s'], sactions + [b])
  {
    forall k | 0 <= k < |sactions| + 1
      ensures S.StepAt(srun + [s'], sactions + [b], k)
    {
      if k < |sactions| {
        assert S.StepAt(srun, sactions, k);
      }
    }
  }

  /** What the session goes through in a run of the whole system is a run of the session system:
      everything proved about sessions holds here. */
  lemma {:induction false} ProjectsToSession(
      f: Format, interpret: Interpreter, run: seq<State>, actions: seq<Action>, k: nat)
    returns (srun: seq<S.State>, sactions: seq<S.Action>)
    requires WellFormed(f) && Behavior(f, interpret, run, actions) && k < |run|
    ensures S.Behavior(srun, sactions) && srun[|sactions|] == run[k].session
  {
    if k == 0 {
      srun, sactions := [run[0].session], [];
    } else {
      srun, sactions := ProjectsToSession(f, interpret, run, actions, k - 1);
      assert StepAt(f, interpret, run, actions, k - 1);
      RefinesSession(f, interpret, run[k - 1], actions[k - 1]);
      var s' := run[k].session;
      if s' != run[k - 1].session {
        var b :| S.Enabled(run[k - 1].session, b) && s' == S.Next(run[k - 1].session, b);
        SessionExtended(srun, sactions, b, s');
        srun, sactions := srun + [s'], sactions + [b];
      }
    }
  }

  lemma {:induction false} NetOfPrefix(a: seq<Origin>, b: seq<Origin>)
    requires a <= b
    ensures NetOf(a) <= NetOf(b)
  {
    if a == b {
    } else {
      NetOfPrefix(a, b[..|b| - 1]);
    }
  }

  // ---- The drain loop ends ----

  /** How many steps a thread at the drain loop still takes. */
  function DrainLeft(s: State, t: nat): nat {
    if IsDraining(s, t) then 2 * |s.ring| + (if s.held[t].Some? then 1 else 0) + 1 else 0
  }

  predicate DrainsFor(a: Action, t: nat) {
    (a.Take? || a.Send? || a.DrainDone?) && a.t == t
  }

  function DrainSteps(actions: seq<Action>, i: nat, k: nat, t: nat): nat
    requires i <= k <= |actions|
  {
    if i == k then 0 else DrainSteps(actions, i, k - 1, t) + if DrainsFor(actions[k - 1], t) then 1 else 0
  }

  /** A thread that comes to the drain loop with n bytes in the ring is there for at most 2n + 2 steps of its own,
      whatever the others do. */
  lemma {:induction false} DrainLoopEnds(
      f: Format, interpret: Interpreter, run: seq<State>, actions: seq<Action>, i: nat, k: nat, t: nat)
    requires WellFormed(f) && Behavior(f, interpret, run, actions) && i <= k < |run|
    requires forall j :: i <= j < k ==> IsDraining(run[j], t)
    ensures DrainSteps(actions, i, k, t) + DrainLeft(run[k], t) <= DrainLeft(run[i], t) <= 2 * |run[i].ring| + 2
    decreases k
  {
    if i < k {
      DrainLoopEnds(f, interpret, run, actions, i, k - 1, t);
      DrainLoopAt(f, interpret, run, actions, k - 1, t);
    }
  }

  lemma DrainLoopAt(f: Format, interpret: Interpreter, run: seq<State>, actions: seq<Action>, k: nat, t: nat)
    requires WellFormed(f) && Behavior(f, interpret, run, actions) && k < |actions| && IsDraining(run[k], t)
    ensures DrainLeft(run[k + 1], t) + (if DrainsFor(actions[k], t) then 1 else 0) <= DrainLeft(run[k], t)
  {
    InvAlways(f, interpret, run, actions, k);
    assert StepAt(f, interpret, run, actions, k);
    DrainLoopStep(f, interpret, run[k], actions[k], t);
  }

  lemma DrainLoopStep(f: Format, interpret: Interpreter, s: State, a: Action, t: nat)
    requires WellFormed(f) && Inv(f, interpret, s) && Enabled(f, s, a) && IsDraining(s, t)
    ensures DrainLeft(Next(f, interpret, s, a), t) + (if DrainsFor(a, t) then 1 else 0) <= DrainLeft(s, t)
  {
    DrainerCarries(s, t);
    match a
    case Take(u) => DrainerCarries(s, u);
    case Send(u, _) => DrainerCarries(s, u);
    case DrainDone(u) => DrainerCarries(s, u);
    case _ =>
  }

  // ---- Told from the receives and the handlers that were run ----

  /** What was received in the first k steps. */
  function Chunks(actions: seq<Action>, k: nat): seq<seq<Byte>>
    requires k <= |actions|
  {
    if k == 0 then []
    else Chunks(actions, k - 1) + if actions[k - 1].Receive? then [actions[k - 1].chunk] else []
  }

  lemma {:induction false} ReceivedExactly(
      f: Format, interpret: Interpreter, run: seq<State>, actions: seq<Action>, k: nat)
    requires WellFormed(f) && Behavior(f, interpret, run, actions) && k < |run|
    ensures run[k].received == Chunks(actions, k)
  {
    if k > 0 {
      ReceivedExactly(f, interpret, run, actions, k - 1);
      assert StepAt(f, interpret, run, actions, k - 1);
    }
  }

  function Boxes(run: seq<State>): seq<Mail.Box<Origin>> {
    seq(|run|, i requires 0 <= i < |run| => run[i].box)
  }

  /** The network handlers run in the first k steps, in the order in which they began. */
  function NetRan(run: seq<State>, k: nat): seq<Message>
    requires k < |run|
  {
    NetOf(Mail.Ran(Boxes(run), k))
  }

  /** Only the logic thread runs handlers. */
  lemma BeganAtActor(f: Format, interpret: Interpreter, s: State, a: Action)
    requires WellFormed(f) && Mail.BoxInv(s.box) && Enabled(f, s, a)
    ensures var b' := Next(f, interpret, s, a).box;
      Mail.Executed(b') == Mail.Executed(s.box) + Mail.Began(s.box, b')
  {
    if a.Actor? {
      Mail.BeganStep(s.box, a.b);
    }
  }

  lemma BeganAt(f: Format, interpret: Interpreter, run: seq<State>, actions: seq<Action>, k: nat)
    requires WellFormed(f) && Behavior(f, interpret, run, actions) && k < |actions|
    ensures Mail.Follows(Boxes(run), k)
  {
    InvAlways(f, interpret, run, actions, k);
    assert StepAt(f, interpret, run, actions, k);
    BeganAtActor(f, interpret, run[k], actions[k]);
  }

  lemma ExecutedWereRun(f: Format, interpret: Interpreter, run: seq<State>, actions: seq<Action>, k: nat)
    requires WellFormed(f) && Behavior(f, interpret, run, actions) && k < |run|
    ensures Mail.Executed(run[k].box) == Mail.Ran(Boxes(run), k)
  {
    forall j: nat | j < k
      ensures Mail.Follows(Boxes(run), j)
    {
      BeganAt(f, interpret, run, actions, j);
    }
    Mail.RanFollows(Boxes(run), k);
  }

  /** For every interleaving of receives, sends from other actors and logic ticks, and however the stream
      is cut: the network handlers run so far are a prefix of the accepted messages, and those a prefix
      of what the server's loop makes of the receives one after the other. */
  lemma ExecutedInServedOrder(
      f: Format, interpret: Interpreter, run: seq<State>, actions: seq<Action>, k: nat)
    requires WellFormed(f) && Behavior(f, interpret, run, actions) && k < |run|
    ensures NetRan(run, k) <= AcceptedNet(run[k].box)
    ensures AcceptedNet(run[k].box) <= ServeChunks(f, interpret, Chunks(actions, k)).messages
  {
    InvAlways(f, interpret, run, actions, k);
    ReceivedExactly(f, interpret, run, actions, k);
    ExecutedWereRun(f, interpret, run, actions, k);
    var s := run[k];
    Mail.ExecutedPrefix(s.box);
    NetOfPrefix(Mail.Executed(s.box), Mail.Functions(s.box.accepted));
  }

  /** Nothing is lost either: whenever the next receive is posted, every message of the receives has been
      accepted, and once the logic thread has emptied the mailbox the handler of every one has been run. */
  lemma NothingLost(f: Format, interpret: Interpreter, run: seq<State>, actions: seq<Action>, k: nat)
    requires WellFormed(f) && Behavior(f, interpret, run, actions) && k < |run|
    requires run[k].session.life.recvPosted
    ensures AcceptedNet(run[k].box) == ServeChunks(f, interpret, Chunks(actions, k)).messages
    ensures run[k].box.consumerQueue == [] && run[k].box.storeQueue == [] ==>
      NetRan(run, k) == ServeChunks(f, interpret, Chunks(actions, k)).messages
  {
    InvAlways(f, interpret, run, actions, k);
    ReceivedExactly(f, interpret, run, actions, k);
    ExecutedWereRun(f, interpret, run, actions, k);
    var s := run[k];
    assert s.session.life.chain == S.InKernel && HeldMessage(s) == [];
    assert s.taken + [] == s.taken && AcceptedNet(s.box) + [] == AcceptedNet(s.box);
    Mail.ExecutedAreBegun(s.box);
    if s.box.consumerQueue == [] && s.box.storeQueue == [] {
      assert Mail.Begun(s.box) == s.box.accepted;
    }
  }

  /** When the receives leave whole frames, the handlers run are a prefix of the messages of the byte
      stream itself, in stream order; nothing after its first undecodable or unknown frame is ever accepted,
      and everything before it is, by the time the next receive is posted. */
  lemma ExecutedInStreamOrder(
      f: Format, interpret: Interpreter, run: seq<State>, actions: seq<Action>, k: nat)
    requires WellFormed(f) && Behavior(f, interpret, run, actions) && k < |run|
    requires WholeReceives(f, interpret, Chunks(actions, k))
    ensures var messages := MessagesOf(f, interpret, Flatten(Chunks(actions, k)));
      && NetRan(run, k) <= AcceptedNet(run[k].box) <= messages
      && (run[k].session.life.recvPosted ==> AcceptedNet(run[k].box) == messages)
  {
    ExecutedInServedOrder(f, interpret, run, actions, k);
    WholeReceivesServed(f, interpret, Chunks(actions, k));
    if run[k].session.life.recvPosted {
      NothingLost(f, interpret, run, actions, k);
    }
  }

  /** From sender to handlers: when the bytes received so far are those of the packets sent and whole frames at
      each receive, the handlers run are a prefix of the packets' messages in the order sent, and all of them by the
      time the next receive is posted and the mailbox is empty. */
  lemma SentThenRun(
      f: Format, interpret: Interpreter, run: seq<State>, actions: seq<Action>, k: nat, sent: seq<Sent>)
    requires WellFormed(f) && Behavior(f, interpret, run, actions) && k < |run|
    requires AllFit(f, sent) && AllDecode(f, sent) && Complete(sent, [])
    requires AllAccepted(interpret, Received(f, sent))
    requires Flatten(Chunks(actions, k)) == Stream(f, sent) && WholeReceives(f, interpret, Chunks(actions, k))
    ensures var messages := Messages(interpret, Received(f, sent));
      && NetRan(run, k) <= messages
      && (run[k].session.life.recvPosted && run[k].box.consumerQueue == [] && run[k].box.storeQueue == [] ==>
            NetRan(run, k) == messages)
  {
    StreamHolds(f, interpret, sent, []);
    assert Stream(f, sent) + [] == Stream(f, sent);
    ExecutedInStreamOrder(f, interpret, run, actions, k);
    if run[k].session.life.recvPosted {
      NothingLost(f, interpret, run, actions, k);
    }
  }
}
