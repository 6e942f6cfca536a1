/** What else a teardown beside a running session does to its buffers, exactly: which sends hand the kernel a
    freed buffer, which buffers nobody will free, and when all of them have been freed in the end. */
module SessionLeftovers {
  import opened SessionSteps
  import opened SessionSends
  import opened SessionMoves
  import opened SessionTeardown
  import opened SessionProgress
  import opened SessionCounting

  // ---- Sends of freed buffers ----

  /** How many places the batch fills that is being loaded, about to be posted or posted. */
  ghost function Outgoing(p: Pump, pc: Pc): nat {
    if pc == Idle && p.owner == Kernel && p.wire != [] then |p.wire[|p.wire| - 1]| else Loading(pc)
  }

  ghost predicate OutgoingInv(p: Pump, pc: Pc, m: Marks) {
    pc == Idle && p.owner == Kernel ==>
      && p.wire != [] && Outgoing(p, pc) <= |p.store| && p.wire[|p.wire| - 1] == p.store[..Outgoing(p, pc)]
      && forall i: nat :: i < Outgoing(p, pc) ==> (i in m.live <==> i !in m.robbed && i !in m.missed)
  }

  lemma OutgoingStep(p: Pump, pc: Pc, mv: Move, m: Marks)
    requires CanMove(p, pc, mv) && RangeInv(p, pc) && StoreInv(p, pc, m) && OutgoingInv(p, pc, m)
    ensures var (p', pc') := Moved(p, pc, mv); OutgoingInv(p', pc', Marked(p, pc, mv, m))
  {
    if mv == Own(true) && pc.PostSend? {
      assert forall i: nat :: i < pc.n ==> (i in m.live <==> i !in m.robbed && i !in m.missed);
    }
  }

  lemma {:induction false} OutgoingAlways(run: seq<State>, actions: seq<Action>, k: nat)
    requires Behavior(run, actions) && k < |run|
    ensures OutgoingInv(run[k].pump, PcOf(run[k]), MarksAt(run, actions, k))
  {
    if k > 0 {
      OutgoingAlways(run, actions, k - 1);
      PlacesAlways(run, actions, k - 1);
      RunStepMoves(run, actions, k - 1);
      var s, mv, m := run[k - 1], MoveOf(run[k - 1], actions[k - 1]), MarksAt(run, actions, k - 1);
      OutgoingStep(s.pump, PcOf(s), mv, m);
    }
  }

  /** In every run: a buffer that is about to be posted or is being sent has been freed already, or is none at all,
      if and only if the teardown has freed its place since it was written or the fill loop found no buffer for
      that place. */
  lemma SendsFreedExactly(run: seq<State>, actions: seq<Action>, k: nat, i: nat)
    requires Behavior(run, actions) && k < |run| && i < Outgoing(run[k].pump, PcOf(run[k]))
    ensures i < |run[k].pump.store|
    ensures var p, m := run[k].pump, MarksAt(run, actions, k);
      p.store[i] == NIL || p.store[i] in p.freed <==> i in m.robbed || i in m.missed
    ensures var p := run[k].pump;
      var n := Outgoing(p, PcOf(run[k]));
      p.posted ==> n <= |p.store| && p.wire != [] && p.wire[|p.wire| - 1] == p.store[..n]
  {
    PlacesAlways(run, actions, k);
    OutgoingAlways(run, actions, k);
    SafeAlways(run, actions, k);
    assert i !in MarksAt(run, actions, k).live <==> IsSpent(run[k].pump, i);
  }

  // ---- Nothing is lost ----

  ghost predicate SomewhereInv(p: Pump) {
    forall b :: b in p.enqueued ==> b in p.queue || b in p.store || b in p.freed
  }

  lemma SomewhereStep(p: Pump, pc: Pc, mv: Move, m: Marks)
    requires CanMove(p, pc, mv) && RangeInv(p, pc) && SomewhereInv(p) && LiveInv(p, pc, m)
    requires PlaceInv(p) && SpentInv(p, m)
    ensures SomewhereInv(Moved(p, pc, mv).0)
  {
    var p' := Moved(p, pc, mv).0;
    if Takes(p, pc, mv) {
      assert pc.i !in m.live && IsSpent(p, pc.i);
      TakenSomewhere(p, pc.i, p');
    } else if Drains(p, mv) {
      assert p.queue == [p.queue[0]] + p.queue[1..];
    } else if Frees(p, pc, mv).Some? {
      FreesMove(p, pc, mv, Frees(p, pc, mv).value, m);
    } else if !mv.Enqueues? {
      MovesNothing(p, pc, mv);
    }
  }

  lemma TakenSomewhere(p: Pump, i: nat, p': Pump)
    requires SomewhereInv(p) && i < |p.store| && p.queue != [] && (p.store[i] in p.freed || p.store[i] !in p.enqueued)
    requires p' == p.(store := p.store[i := p.queue[0]], queue := p.queue[1..])
    ensures SomewhereInv(p')
  {
    forall b | b in p.enqueued
      ensures b in p'.queue || b in p'.store || b in p'.freed
    {
      if b in p.store && b != p.store[i] {
        var j :| 0 <= j < |p.store| && p.store[j] == b;
        assert p'.store[j] == b;
      } else if b in p.queue {
        assert p.queue == [p.queue[0]] + p.queue[1..];
        assert p'.store[i] == p.queue[0];
      }
    }
  }

  lemma {:induction false} SomewhereAlways(run: seq<State>, actions: seq<Action>, k: nat)
    requires Behavior(run, actions) && k < |run|
    ensures SomewhereInv(run[k].pump)
  {
    if k > 0 {
      SomewhereAlways(run, actions, k - 1);
      PlacesAlways(run, actions, k - 1);
      RunStepMoves(run, actions, k - 1);
      var s := run[k - 1];
      SomewhereStep(s.pump, PcOf(s), MoveOf(s, actions[k - 1]), MarksAt(run, actions, k - 1));
    }
  }

  /** The buffer is in a place of the store that is still to be freed. */
  ghost predicate InStore(p: Pump, m: Marks, b: Buffer) {
    exists i :: 0 <= i < |p.store| && i in m.live && p.store[i] == b
  }

  /** In every run, whatever a teardown does, an enqueued buffer is in the queue, or in the store and still to be freed,
      or freed, and in only one of them, and in the queue once; and each has been freed at most once if and only
      if owner and teardown have not collided. */
  lemma NoBufferLostOrFreedTwice(run: seq<State>, actions: seq<Action>, k: nat, b: Buffer)
    requires Behavior(run, actions) && k < |run|
    ensures var p, m := run[k].pump, MarksAt(run, actions, k);
      && (b in p.enqueued <==> b in p.queue || InStore(p, m, b) || (b in p.freed && b != NIL))
      && !(b in p.queue && b in p.freed) && !(b in p.queue && InStore(p, m, b)) && !(b in p.freed && InStore(p, m, b))
      && Distinct(p.queue)
      && (FreedOnce(p) <==> NoneCollides(run, actions, k))
  {
    PlacesAlways(run, actions, k);
    SomewhereAlways(run, actions, k);
    FreedTwiceExactly(run, actions, k);
    var p, m := run[k].pump, MarksAt(run, actions, k);
    assert forall i :: 0 <= i < |p.store| && i in m.live ==> !IsSpent(p, i) && p.store[i] in p.store;
    if b in p.enqueued && b in p.store {
      var i :| 0 <= i < |p.store| && p.store[i] == b;
      assert i in m.live || IsSpent(p, i);
    }
  }

  // ---- Buffers nobody will free ----

  /** The owner, or the completion of the posted send, frees this place. Once a session is being disconnected no
      completion of a send is handled. */
  predicate OwnerOwes(p: Pump, pc: Pc, i: nat) {
    match pc
    case Fill(j, _) => i < j
    case AddCount(n) => i < n
    case CountSend(_) | PostSend(_) => i < p.bufferCount
    case FreeStore(j) => j <= i < p.bufferCount
    case FreePlace(j) => j <= i < p.bufferCount
    case Idle => p.posted && i < p.bufferCount && p.disconnect == NotYet
    case _ => false
  }

  /** The teardown, if there is one, frees this place. */
  predicate TeardownOwes(p: Pump, i: nat) {
    match p.disconnect
    case NotYet => i < p.bufferCount
    case FreeingStore(j) => j <= i < p.bufferCount
    case FreeingPlace(j) => i == j || j < i < p.bufferCount
    case _ => false
  }

  /** Every buffer in the store that is still to be freed is due to somebody. */
  ghost predicate OwedInv(p: Pump, pc: Pc, m: Marks) {
    forall i: nat :: i in m.live ==> OwnerOwes(p, pc, i) || TeardownOwes(p, i)
  }

  /** A counted batch on its way to the kernel. */
  predicate ToPost(pc: Pc) {
    pc.CountSend? || pc.PostSend?
  }

  /** The steps that leave a buffer in the store to nobody: the teardown resets the count of a batch on its way to the
      kernel, before it has freed all of it; and a batch is posted, be it in vain, of which the teardown will
      free no more, though it has not freed all of it. What the fill loop missed is no buffer of the batch. */
  ghost predicate Abandons(p: Pump, pc: Pc, mv: Move, m: Marks) {
    || (mv.Tears? && p.disconnect.ResettingCount? && ToPost(pc)
        && exists i: nat :: i < p.bufferCount && i !in m.robbed)
    || (mv.Own? && pc.PostSend?
        && exists i: nat :: i < p.bufferCount && i !in m.robbed && i !in m.missed && !TeardownOwes(p, i))
  }

  lemma AbandonsOwn(p: Pump, pc: Pc, ok: bool, m: Marks)
    requires CanMove(p, pc, Own(ok)) && RangeInv(p, pc) && StoreInv(p, pc, m) && OwedInv(p, pc, m)
    requires (Intact(p) ==> StageInv(p, pc)) && CountFits(p, pc)
    ensures var (p', pc') := Moved(p, pc, Own(ok));
      OwedInv(p', pc', Marked(p, pc, Own(ok), m)) <==> !Abandons(p, pc, Own(ok), m)
  {
  }

  lemma AbandonsTears(p: Pump, pc: Pc, m: Marks)
    requires CanMove(p, pc, Tears) && RangeInv(p, pc) && StoreInv(p, pc, m) && OwedInv(p, pc, m)
    requires (Intact(p) ==> StageInv(p, pc)) && CountFits(p, pc)
    ensures var (p', pc') := Moved(p, pc, Tears);
      OwedInv(p', pc', Marked(p, pc, Tears, m)) <==> !Abandons(p, pc, Tears, m)
  {
  }

  lemma AbandonsOther(p: Pump, pc: Pc, mv: Move, m: Marks)
    requires CanMove(p, pc, mv) && RangeInv(p, pc) && StoreInv(p, pc, m) && OwedInv(p, pc, m) && !mv.Own? && !mv.Tears?
    ensures var (p', pc') := Moved(p, pc, mv); OwedInv(p', pc', Marked(p, pc, mv, m))
  {
  }

  /** A batch on its way to the kernel is counted in full, unless a reset came between. */
  predicate CountFits(p: Pump, pc: Pc) {
    ToPost(pc) ==> p.bufferCount == pc.n || (p.bufferCount == 0 && !Intact(p))
  }

  lemma CountFitsStep(p: Pump, pc: Pc, mv: Move)
    requires CanMove(p, pc, mv) && RangeInv(p, pc) && CountFits(p, pc)
    ensures var (p', pc') := Moved(p, pc, mv); CountFits(p', pc')
  {
  }

  lemma {:induction false} CountFitsAlways(run: seq<State>, actions: seq<Action>, k: nat)
    requires Behavior(run, actions) && k < |run|
    ensures CountFits(run[k].pump, PcOf(run[k]))
  {
    if k > 0 {
      CountFitsAlways(run, actions, k - 1);
      RunStepMoves(run, actions, k - 1);
      CountFitsStep(run[k - 1].pump, PcOf(run[k - 1]), MoveOf(run[k - 1], actions[k - 1]));
    }
  }

  ghost predicate OwedAt(run: seq<State>, actions: seq<Action>, k: nat)
    requires k < |run| == |actions| + 1
  {
    OwedInv(run[k].pump, PcOf(run[k]), MarksAt(run, actions, k))
  }

  ghost predicate AbandonsAt(run: seq<State>, actions: seq<Action>, k: nat)
    requires k < |actions| && |run| == |actions| + 1
  {
    Abandons(run[k].pump, PcOf(run[k]), MoveOf(run[k], actions[k]), MarksAt(run, actions, k))
  }

  ghost predicate NoneAbandoned(run: seq<State>, actions: seq<Action>, k: nat)
    requires k < |run| == |actions| + 1
  {
    forall j :: 0 <= j < k ==> !AbandonsAt(run, actions, j)
  }

  lemma OwedNext(run: seq<State>, actions: seq<Action>, k: nat)
    requires Behavior(run, actions) && k < |actions| && OwedAt(run, actions, k)
    ensures OwedAt(run, actions, k + 1) <==> !AbandonsAt(run, actions, k)
  {
    PlacesAlways(run, actions, k);
    CountFitsAlways(run, actions, k);
    RunStepMoves(run, actions, k);
    var p, pc, mv, m := run[k].pump, PcOf(run[k]), MoveOf(run[k], actions[k]), MarksAt(run, actions, k);
    match mv
    case Own(ok) => AbandonsOwn(p, pc, ok, m);
    case Tears => AbandonsTears(p, pc, m);
    case _ => AbandonsOther(p, pc, mv, m);
  }

  /** In every run: every buffer in the store has been due to somebody in every state so far if and only if no step
      was one of those. */
  lemma {:induction false} AbandonedExactly(run: seq<State>, actions: seq<Action>, k: nat)
    requires Behavior(run, actions) && k < |run|
    ensures (forall j :: 0 <= j <= k ==> OwedAt(run, actions, j)) <==> NoneAbandoned(run, actions, k)
  {
    if k > 0 {
      AbandonedExactly(run, actions, k - 1);
      if OwedAt(run, actions, k - 1) {
        OwedNext(run, actions, k - 1);
      }
    }
  }

  // ---- By position ----

  /** As long as there has been no collision: what the teardown has freed of a batch on its way to the kernel. */
  ghost predicate TornInv(p: Pump, pc: Pc, m: Marks) {
    Intact(p) && (pc.Fill? || pc.AddCount? || ToPost(pc)) ==>
      Torn(p) <= Loading(pc) && forall i: nat :: i < Torn(p) ==> i in m.robbed
  }

  lemma TornStep(p: Pump, pc: Pc, mv: Move, m: Marks)
    requires CanMove(p, pc, mv) && RangeInv(p, pc) && ShareInv(p, pc) && TornInv(p, pc, m) && !Collides(p, pc, mv)
    requires Intact(p) ==> StageInv(p, pc)
    ensures var (p', pc') := Moved(p, pc, mv); TornInv(p', pc', Marked(p, pc, mv, m))
  {
    match mv
    case Own(ok) => TornOwn(p, pc, ok, m);
    case Tears => TornTears(p, pc, m);
    case _ =>
  }

  lemma TornOwn(p: Pump, pc: Pc, ok: bool, m: Marks)
    requires CanMove(p, pc, Own(ok)) && RangeInv(p, pc) && ShareInv(p, pc) && TornInv(p, pc, m)
    ensures var (p', pc') := Moved(p, pc, Own(ok)); TornInv(p', pc', Marked(p, pc, Own(ok), m))
  {
  }

  lemma TornTears(p: Pump, pc: Pc, m: Marks)
    requires CanMove(p, pc, Tears) && RangeInv(p, pc) && ShareInv(p, pc) && TornInv(p, pc, m)
    requires !Collides(p, pc, Tears) && (Intact(p) ==> StageInv(p, pc))
    ensures var (p', pc') := Moved(p, pc, Tears); TornInv(p', pc', Marked(p, pc, Tears, m))
  {
  }

  lemma {:induction false} TornUntilCollision(run: seq<State>, actions: seq<Action>, k: nat)
    requires Behavior(run, actions) && k < |run| && NoneCollides(run, actions, k)
    ensures TornInv(run[k].pump, PcOf(run[k]), MarksAt(run, actions, k))
  {
    if k > 0 {
      TornUntilCollision(run, actions, k - 1);
      SharesUntilCollision(run, actions, k - 1);
      RunStepMoves(run, actions, k - 1);
      assert !CollidesAt(run, actions, k - 1);
      var s := run[k - 1];
      TornStep(s.pump, PcOf(s), MoveOf(s, actions[k - 1]), MarksAt(run, actions, k - 1));
    }
  }

  lemma TornPlaces(p: Pump, pc: Pc, m: Marks)
    requires TornInv(p, pc, m) && MarkInv(p, m) && Intact(p) && StageInv(p, pc) && ToPost(pc)
    ensures m.missed == {} && Torn(p) <= p.bufferCount
    ensures forall i: nat :: i < p.bufferCount ==> (i in m.robbed <==> i < Torn(p))
  {
  }

  /** In every run without a collision so far: until the teardown has reset the count, a step abandons a buffer if and
      only if the teardown is at that reset, having freed fewer than are counted, and either makes it while
      the batch is on its way to the kernel, or the batch is posted before it. */
  lemma AbandonsByPosition(run: seq<State>, actions: seq<Action>, k: nat)
    requires Behavior(run, actions) && k < |actions| && NoneCollides(run, actions, k) && Intact(run[k].pump)
    ensures var p, pc, mv := run[k].pump, PcOf(run[k]), MoveOf(run[k], actions[k]);
      AbandonsAt(run, actions, k) <==>
        && p.disconnect.ResettingCount? && p.disconnect.i < p.bufferCount
        && ((mv.Tears? && ToPost(pc)) || (mv.Own? && pc.PostSend?))
  {
    var p, pc, m := run[k].pump, PcOf(run[k]), MarksAt(run, actions, k);
    PlacesAlways(run, actions, k);
    TornUntilCollision(run, actions, k);
    RunStepMoves(run, actions, k);
    if ToPost(pc) {
      TornPlaces(p, pc, m);
      PositionOf(p, pc, MoveOf(run[k], actions[k]), m);
    }
  }

  lemma PositionOf(p: Pump, pc: Pc, mv: Move, m: Marks)
    requires CanMove(p, pc, mv) && Intact(p) && ToPost(pc) && m.missed == {}
    requires Torn(p) <= p.bufferCount && forall i: nat :: i < p.bufferCount ==> (i in m.robbed <==> i < Torn(p))
    ensures Abandons(p, pc, mv, m) <==>
      p.disconnect.ResettingCount? && p.disconnect.i < p.bufferCount && (mv.Tears? || (mv.Own? && pc.PostSend?))
  {
    if p.disconnect.ResettingCount? && p.disconnect.i < p.bufferCount {
      assert Torn(p) !in m.robbed && !TeardownOwes(p, Torn(p));
    }
  }

  // ---- An abandoned buffer is never freed ----

  /** Beside a disconnected session, a batch on its way to the kernel, posted or failed, of which the teardown will not
      free some place: its owner never comes to free it. */
  ghost predicate Doomed(p: Pump, pc: Pc, m: Marks) {
    && p.disconnect != NotYet && (ToPost(pc) || (pc == Idle && p.owner != NoOwner))
    && exists i: nat :: i < |p.store| && i in m.live && !TeardownOwes(p, i)
  }

  lemma DoomedStays(p: Pump, pc: Pc, mv: Move, m: Marks)
    requires CanMove(p, pc, mv) && RangeInv(p, pc) && Doomed(p, pc, m)
    ensures var (p', pc') := Moved(p, pc, mv); Doomed(p', pc', Marked(p, pc, mv, m))
  {
    var i: nat :| i < |p.store| && i in m.live && !TeardownOwes(p, i);
    var p' := Moved(p, pc, mv).0;
    assert i in Marked(p, pc, mv, m).live && !TeardownOwes(p', i) && |p'.store| == |p.store|;
  }

  lemma AbandonedDoomed(p: Pump, pc: Pc, mv: Move, m: Marks)
    requires CanMove(p, pc, mv) && RangeInv(p, pc) && StoreInv(p, pc, m) && OwedInv(p, pc, m) && Abandons(p, pc, mv, m)
    requires (Intact(p) ==> StageInv(p, pc)) && CountFits(p, pc)
    ensures var (p', pc') := Moved(p, pc, mv); Doomed(p', pc', Marked(p, pc, mv, m))
  {
    var p' := Moved(p, pc, mv).0;
    var i: nat :| i < p.bufferCount && i !in m.robbed && i !in m.missed && (mv.Tears? || !TeardownOwes(p, i));
    assert i in m.live && i < |p'.store| && !TeardownOwes(p', i);
  }

  lemma {:induction false} DoomedOnceAbandoned(run: seq<State>, actions: seq<Action>, k: nat)
    requires Behavior(run, actions) && k < |run| && !NoneAbandoned(run, actions, k)
    ensures Doomed(run[k].pump, PcOf(run[k]), MarksAt(run, actions, k))
  {
    var s, mv, m := run[k - 1], MoveOf(run[k - 1], actions[k - 1]), MarksAt(run, actions, k - 1);
    RunStepMoves(run, actions, k - 1);
    if NoneAbandoned(run, actions, k - 1) {
      AbandonedExactly(run, actions, k - 1);
      PlacesAlways(run, actions, k - 1);
      CountFitsAlways(run, actions, k - 1);
      assert OwedAt(run, actions, k - 1) && AbandonsAt(run, actions, k - 1);
      AbandonedDoomed(s.pump, PcOf(s), mv, m);
    } else {
      DoomedOnceAbandoned(run, actions, k - 1);
      DoomedStays(s.pump, PcOf(s), mv, m);
    }
  }

  // ---- The end ----

  /** The teardown is over, no thread owns the send side and nothing is queued. */
  ghost predicate AtEnd(s: State) {
    s.pump.disconnect.Disconnected? && PcOf(s) == Idle && s.pump.queue == []
  }

  lemma SameBuffersFreed(enqueued: seq<Buffer>, freed: seq<Buffer>)
    requires Distinct(enqueued) && Distinct(freed) && forall b :: b in enqueued <==> b in freed
    ensures multiset(enqueued) == multiset(freed)
  {
    forall b
      ensures multiset(enqueued)[b] == multiset(freed)[b]
    {
      DistinctCount(enqueued, b);
      DistinctCount(freed, b);
    }
  }

  lemma {:induction false} DistinctCount(s: seq<Buffer>, b: Buffer)
    requires Distinct(s)
    ensures multiset(s)[b] == if b in s then 1 else 0
  {
    if s != [] {
      assert s == s[..|s| - 1] + [s[|s| - 1]];
      DistinctCount(s[..|s| - 1], b);
    }
  }

  lemma CountTwice(s: seq<Buffer>, i: nat, j: nat)
    requires i < j < |s| && s[i] == s[j]
    ensures multiset(s)[s[i]] >= 2
  {
    assert s == s[..j] + [s[j]] + s[j + 1..];
    assert s[i] in s[..j];
  }

  lemma SameBuffersOnce(enqueued: seq<Buffer>, freed: seq<Buffer>)
    requires Distinct(enqueued) && multiset(enqueued) == multiset(freed)
    ensures Distinct(freed) && forall b :: b in enqueued <==> b in freed
  {
    forall b
      ensures b in enqueued <==> b in freed
    {
      assert b in enqueued <==> b in multiset(enqueued);
      assert b in freed <==> b in multiset(freed);
    }
    forall i, j | 0 <= i < j < |freed|
      ensures freed[i] != freed[j]
    {
      DistinctCount(enqueued, freed[i]);
      if freed[i] == freed[j] {
        CountTwice(freed, i, j);
      }
    }
  }

  lemma LiveIsUnfreed(p: Pump, pc: Pc, m: Marks)
    requires PlaceInv(p) && SpentInv(p, m) && Doomed(p, pc, m)
    ensures exists b :: b in p.enqueued && b !in p.freed
  {
    var i: nat :| i < |p.store| && i in m.live && !TeardownOwes(p, i);
    assert !IsSpent(p, i) && p.store[i] in p.store;
    assert p.store[i] in p.enqueued && p.store[i] !in p.freed;
  }

  /** At the end of a run what has been freed is exactly what was enqueued, each once, if and only if owner and teardown
      have not collided and no step has abandoned a buffer. */
  lemma TeardownFreesAll(run: seq<State>, actions: seq<Action>, k: nat)
    requires Behavior(run, actions) && k < |run| && AtEnd(run[k])
    ensures multiset(run[k].pump.enqueued) == multiset(run[k].pump.freed) <==>
      NoneCollides(run, actions, k) && NoneAbandoned(run, actions, k)
  {
    PlacesAlways(run, actions, k);
    FreedTwiceExactly(run, actions, k);
    if NoneCollides(run, actions, k) && NoneAbandoned(run, actions, k) {
      FreedAtEnd(run, actions, k);
    }
    if multiset(run[k].pump.enqueued) == multiset(run[k].pump.freed) {
      SameBuffersOnce(run[k].pump.enqueued, run[k].pump.freed);
      if !NoneAbandoned(run, actions, k) {
        DoomedOnceAbandoned(run, actions, k);
        LiveIsUnfreed(run[k].pump, PcOf(run[k]), MarksAt(run, actions, k));
      }
    }
  }

  lemma FreedAtEnd(run: seq<State>, actions: seq<Action>, k: nat)
    requires Behavior(run, actions) && k < |run| && AtEnd(run[k])
    requires NoneCollides(run, actions, k) && NoneAbandoned(run, actions, k)
    ensures multiset(run[k].pump.enqueued) == multiset(run[k].pump.freed)
  {
    var p, m := run[k].pump, MarksAt(run, actions, k);
    PlacesAlways(run, actions, k);
    FreedTwiceExactly(run, actions, k);
    AbandonedExactly(run, actions, k);
    assert OwedAt(run, actions, k);
    forall b | b in p.enqueued
      ensures b in p.freed
    {
      NoBufferLostOrFreedTwice(run, actions, k, b);
    }
    SameBuffersFreed(p.enqueued, p.freed);
  }

  // ---- A teardown that meets nobody ----

  /** No thread is in the send code; a send may be posted. */
  ghost predicate Quiet(s: State) {
    forall t :: 0 <= t < |s.threads| ==> !InSendCode(s.threads[t])
  }

  lemma {:induction false} NotYetBefore(run: seq<State>, actions: seq<Action>, j: nat, k: nat)
    requires Behavior(run, actions) && j <= k < |run| && run[k].pump.disconnect == NotYet
    ensures run[j].pump.disconnect == NotYet
    decreases k
  {
    if j < k {
      assert StepAt(run, actions, k - 1);
      NotYetBefore(run, actions, j, k - 1);
    }
  }

  /** Before a teardown begins no step collides with one or abandons a buffer. */
  lemma {:induction false} NothingBefore(run: seq<State>, actions: seq<Action>, k: nat)
    requires Behavior(run, actions) && k < |run| && run[k].pump.disconnect == NotYet
    ensures NoneCollides(run, actions, k) && NoneAbandoned(run, actions, k)
  {
    if k > 0 {
      NotYetBefore(run, actions, k - 1, k);
      NothingBefore(run, actions, k - 1);
    }
  }

  /** What a teardown that meets nobody has done so far. */
  ghost predicate QuietInv(p: Pump) {
    && (p.disconnect.FreeingPlace? ==> p.disconnect.i < p.bufferCount)
    && (!Intact(p) ==> p.bufferCount == 0)
    && (p.disconnect.Disconnected? ==> p.queue == [])
  }

  lemma QuietStep(s: State, a: Action)
    requires SafeInv(s) && Enabled(s, a) && Quiet(s) && Quiet(Next(s, a)) && QuietInv(s.pump)
    ensures QuietInv(Next(s, a).pump) && PcOf(s) == Idle
    ensures var mv := MoveOf(s, a); mv == Stays || mv == Starts || mv == Tears || (mv.Completes? && !mv.ok)
  {
    if a.EnqueuePacket? {
      EnqueueEnters(s, a.t, a.b);
    } else if a.SendCompletion? && a.ok {
      CompletionEnters(s, a.t);
    }
  }

  lemma EnqueueEnters(s: State, t: nat, b: Buffer)
    requires Enabled(s, EnqueuePacket(t, b))
    ensures !Quiet(Next(s, EnqueuePacket(t, b)))
  {
    assert InSendCode(Next(s, EnqueuePacket(t, b)).threads[t]);
  }

  lemma CompletionEnters(s: State, t: nat)
    requires Enabled(s, SendCompletion(t, true))
    ensures !Quiet(Next(s, SendCompletion(t, true)))
  {
    assert InSendCode(Next(s, SendCompletion(t, true)).threads[t]);
  }

  lemma QuietNothing(p: Pump, mv: Move, m: Marks)
    requires QuietInv(p) && RangeInv(p, Idle)
    requires mv == Stays || mv == Starts || mv == Tears || (mv.Completes? && !mv.ok)
    ensures !Collides(p, Idle, mv) && !Abandons(p, Idle, mv, m)
  {
  }

  lemma {:induction false} QuietAlways(run: seq<State>, actions: seq<Action>, i: nat, k: nat)
    requires Behavior(run, actions) && i < k < |run| && actions[i] == Erase
    requires forall j :: i <= j <= k ==> Quiet(run[j])
    ensures QuietInv(run[k].pump) && NoneCollides(run, actions, k) && NoneAbandoned(run, actions, k)
    decreases k
  {
    if k == i + 1 {
      QuietStart(run, actions, i);
    } else {
      QuietAlways(run, actions, i, k - 1);
    }
    QuietNext(run, actions, k - 1);
  }

  lemma QuietStart(run: seq<State>, actions: seq<Action>, i: nat)
    requires Behavior(run, actions) && i < |actions| && actions[i] == Erase
    ensures QuietInv(run[i].pump) && NoneCollides(run, actions, i) && NoneAbandoned(run, actions, i)
  {
    assert StepAt(run, actions, i);
    NothingBefore(run, actions, i);
  }

  lemma QuietNext(run: seq<State>, actions: seq<Action>, k: nat)
    requires Behavior(run, actions) && k < |actions| && Quiet(run[k]) && Quiet(run[k + 1]) && QuietInv(run[k].pump)
    ensures QuietInv(run[k + 1].pump) && !CollidesAt(run, actions, k) && !AbandonsAt(run, actions, k)
  {
    assert StepAt(run, actions, k);
    SafeAlways(run, actions, k);
    QuietStep(run[k], actions[k]);
    QuietNothing(run[k].pump, MoveOf(run[k], actions[k]), MarksAt(run, actions, k));
  }

  /** A teardown throughout which no thread is in the send code frees every enqueued buffer, once, be a send posted
      or not. */
  lemma QuietTeardownFreesAll(run: seq<State>, actions: seq<Action>, i: nat, k: nat)
    requires Behavior(run, actions) && i < k < |run| && actions[i] == Erase
    requires (forall j :: i <= j <= k ==> Quiet(run[j])) && run[k].pump.disconnect.Disconnected?
    ensures multiset(run[k].pump.enqueued) == multiset(run[k].pump.freed)
  {
    QuietAlways(run, actions, i, k);
    SafeAlways(run, actions, k);
    TeardownFreesAll(run, actions, k);
  }

  // ---- It happens ----

  /** A session released by a failed receive, with a buffer then enqueued. */
  lemma ReachReleasedOnce(p: Pump, l: Life)
    requires p == UnusedPump() && l == Life(0, 1, true, AcceptDone, false, 0, Ended)
    ensures Reachable(State(p.(queue := [7], enqueued := [7]), l, [Acquire(NoneSending), Idle]))
  {
    ReachInserted(p);
    ReachFirstKey(p);
    ReachNext(State(p, l, [Idle, Idle]), EnqueuePacket(0, 7));
    assert p.queue + [7] == [7];
  }

  /** That buffer sent, and the session taken out of the registry. */
  lemma ReachPostedOnce(p: Pump, l: Life, posted: Pump)
    requires p == UnusedPump() && l == Life(0, 1, true, AcceptDone, false, 0, Ended)
    requires posted == p.(ioMode := Sending, owner := Kernel, posted := true, bufferCount := 1,
                          store := p.store[0 := 7], enqueued := [7], wire := [[7]])
    ensures Reachable(State(posted, l.(ioCount := 1), [Returned(true), Idle]))
  {
    ReachReleasedOnce(p, l);
    var q := p.(queue := [7], enqueued := [7]);
    assert q.wire + [[7]] == [[7]];
    ReachPosted(q, l, Idle, posted);
  }

  /** The owner has freed the batch and not yet reset the count; the teardown frees it again. */
  lemma FreedTwice()
    ensures exists s: State :: Reachable(s) && !FreedOnce(s.pump)
  {
    var p := UnusedPump();
    var l := Life(0, 1, true, AcceptDone, false, 0, Ended);
    var posted := p.(ioMode := Sending, owner := Kernel, posted := true, bufferCount := 1,
                     store := p.store[0 := 7], enqueued := [7], wire := [[7]]);
    ReachPostedOnce(p, l, posted);
    ReachFreed(posted, l.(ioCount := 1), Idle);
    assert posted.freed + [posted.store[0]] == [7];
    var f := posted.(posted := false, owner := ByThread(0), freed := [7]);
    ReachFreedAgain(f, l.(ioCount := 1));
  }

  lemma ReachFreedAgain(f: Pump, l: Life)
    requires Reachable(State(f, l, [ResetCount, Idle])) && l.registered && l.releases > 0
    requires f.disconnect == NotYet && f.bufferCount == 1 && |f.store| > 0 && f.freed == [f.store[0]]
    ensures exists s: State :: Reachable(s) && !FreedOnce(s.pump)
  {
    ReachNext(State(f, l, [ResetCount, Idle]), Erase);
    var gone := l.(registered := false);
    ReachNext(State(f.(disconnect := FreeingStore(0)), gone, [ResetCount, Idle]), TeardownStep);
    var s := State(f.(disconnect := FreeingPlace(0)), gone, [ResetCount, Idle]);
    ReachNext(s, TeardownStep);
    var freed := Next(s, TeardownStep).pump.freed;
    assert freed == f.freed + [f.store[0]] && freed[0] == freed[1];
  }

  /** The other way round: the teardown frees the batch first, and then the owner, whose completion had
      freed nothing when the teardown began. */
  lemma FreedTwiceByOwner()
    ensures exists s: State :: Reachable(s) && !FreedOnce(s.pump)
  {
    var p := UnusedPump();
    var l := Life(0, 1, true, AcceptDone, false, 0, Ended);
    var posted := p.(ioMode := Sending, owner := Kernel, posted := true, bufferCount := 1,
                     store := p.store[0 := 7], enqueued := [7], wire := [[7]]);
    ReachPostedOnce(p, l, posted);
    ReachNext(State(posted, l.(ioCount := 1), [Returned(true), Idle]), SendCompletion(0, true));
    ReachOwnerAfter(posted.(posted := false, owner := ByThread(0)), l.(ioCount := 1));
  }

  lemma ReachOwnerAfter(f: Pump, l: Life)
    requires Reachable(State(f, l, [FreeStore(0), Idle])) && l.registered && l.releases > 0
    requires f.disconnect == NotYet && f.bufferCount == 1 && |f.store| > 0 && f.freed == []
    ensures exists s: State :: Reachable(s) && !FreedOnce(s.pump)
  {
    ReachNext(State(f, l, [FreeStore(0), Idle]), Run(0, true));
    ReachNext(State(f, l, [FreePlace(0), Idle]), Erase);
    ReachTorn(f, l.(registered := false));
    ReachFreedByOwner(f.(freed := [f.store[0]], disconnect := FreeingStore(1)), l.(registered := false));
  }

  lemma ReachFreedByOwner(torn: Pump, l: Life)
    requires Reachable(State(torn, l, [FreePlace(0), Idle])) && |torn.store| > 0 && torn.freed == [torn.store[0]]
    ensures exists s: State :: Reachable(s) && !FreedOnce(s.pump)
  {
    var s := State(torn, l, [FreePlace(0), Idle]);
    ReachNext(s, Run(0, true));
    var freed := Next(s, Run(0, true)).pump.freed;
    assert freed == [torn.store[0], torn.store[0]] && freed[0] == freed[1];
  }

  lemma ReachTorn(f: Pump, l: Life)
    requires Reachable(State(f.(disconnect := FreeingStore(0)), l, [FreePlace(0), Idle]))
    requires f.bufferCount == 1 && |f.store| > 0 && f.freed == []
    ensures Reachable(State(f.(freed := [f.store[0]], disconnect := FreeingStore(1)), l, [FreePlace(0), Idle]))
  {
    ReachNext(State(f.(disconnect := FreeingStore(0)), l, [FreePlace(0), Idle]), TeardownStep);
    ReachNext(State(f.(disconnect := FreeingPlace(0)), l, [FreePlace(0), Idle]), TeardownStep);
    assert f.freed + [f.store[0]] == [f.store[0]];
  }

  /** The teardown drains the queue under the fill loop, whose dequeue then finds nothing. */
  lemma FillFindsNothing()
    ensures exists s: State, n :: Reachable(s) && s.threads == [Fill(0, n), Idle] && 0 < n && s.pump.queue == []
  {
    var p := UnusedPump();
    var l := Life(0, 1, true, AcceptDone, false, 0, Ended);
    ReachReleasedOnce(p, l);
    var q := p.(queue := [7], enqueued := [7]);
    ReachNext(State(q, l, [Acquire(NoneSending), Idle]), Run(0, true));
    var o := q.(ioMode := Sending, owner := ByThread(0));
    ReachNext(State(o, l, [ReadSize(NoneSending), Idle]), Run(0, true));
    ReachNext(State(o, l, [Fill(0, 1), Idle]), Erase);
    ReachDrained(o.(disconnect := FreeingStore(0)), l.(registered := false));
  }

  lemma ReachDrained(o: Pump, l: Life)
    requires Reachable(State(o, l, [Fill(0, 1), Idle]))
    requires o.disconnect == FreeingStore(0) && o.bufferCount == 0 && o.queue == [7]
    ensures exists s: State, n :: Reachable(s) && s.threads == [Fill(0, n), Idle] && 0 < n && s.pump.queue == []
  {
    var threads := [Fill(0, 1), Idle];
    ReachNext(State(o, l, threads), TeardownStep);
    ReachNext(State(o.(disconnect := ResettingCount(0)), l, threads), TeardownStep);
    var s := State(o.(disconnect := DrainingQueue(0)), l, threads);
    ReachNext(s, TeardownStep);
    assert Next(s, TeardownStep).threads == threads && Next(s, TeardownStep).pump.queue == [];
  }
}
