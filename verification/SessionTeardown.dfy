/** Which buffers are freed twice, exactly, when `OnDisconnected` runs beside the threads that still send:
    it waits for none of them, and both free the store from place 0 on. */
module SessionTeardown {
  import opened Common
  import opened SessionSteps
  import opened SessionSends
  import opened SessionMoves

  /** History of the places of the store: those written and not freed since; those for which the fill loop
      of the batch in hand found no buffer; those the teardown has freed since they were written. */
  datatype Marks = Marks(live: set<nat>, missed: set<nat>, robbed: set<nat>)

  const UNMARKED := Marks({}, {}, {})

  ghost function Marked(p: Pump, pc: Pc, mv: Move, m: Marks): Marks {
    match mv
    case Acquires(_) => m.(missed := {})
    case Own(_) =>
      if pc.Fill? && pc.i < pc.n then
        if p.queue == [] then m.(missed := m.missed + {pc.i})
        else Marks(m.live + {pc.i}, m.missed - {pc.i}, m.robbed - {pc.i})
      else if pc.FreePlace? then m.(live := m.live - {pc.i})
      else m
    case Tears =>
      if p.disconnect.FreeingPlace? then m.(live := m.live - {p.disconnect.i}, robbed := m.robbed + {p.disconnect.i})
      else m
    case _ => m
  }

  /** The marks in state k of a run. */
  ghost function MarksAt(run: seq<State>, actions: seq<Action>, k: nat): Marks
    requires k < |run| == |actions| + 1
  {
    if k == 0 then UNMARKED
    else Marked(run[k - 1].pump, PcOf(run[k - 1]), MoveOf(run[k - 1], actions[k - 1]), MarksAt(run, actions, k - 1))
  }

  // ---- Where the buffers are, in every run ----

  /** A buffer is in the queue, in one place of the store or freed, and in the queue only until it is taken. */
  ghost predicate PlaceInv(p: Pump) {
    && |p.store| == ONE_SEND_WSABUF_MAX && Distinct(p.queue) && Distinct(p.enqueued) && NIL !in p.enqueued
    && (forall b :: b in p.queue ==> b in p.enqueued && b !in p.freed && b !in p.store)
    && (forall b :: b in p.freed ==> b in p.enqueued || b == NIL)
    && (forall b :: b in p.store ==> b in p.enqueued || b == NIL)
    && (forall i, j :: 0 <= i < j < |p.store| && p.store[i] == p.store[j] ==> p.store[i] == NIL)
  }

  /** The place holds no buffer that is still to be freed. */
  ghost predicate IsSpent(p: Pump, i: nat)
    requires i < |p.store|
  {
    p.store[i] == NIL || p.store[i] in p.freed
  }

  ghost predicate SpentInv(p: Pump, m: Marks) {
    forall i :: 0 <= i < |p.store| ==> (i !in m.live <==> IsSpent(p, i))
  }

  lemma TakePlaces(p: Pump, i: nat, p': Pump)
    requires PlaceInv(p) && i < |p.store| && p.queue != []
    requires p' == p.(store := p.store[i := p.queue[0]], queue := p.queue[1..])
    ensures PlaceInv(p')
    ensures !IsSpent(p', i) && forall j :: 0 <= j < |p.store| && j != i ==> (IsSpent(p', j) <==> IsSpent(p, j))
  {
    assert p.queue[0] in p.queue;
    assert forall b :: b in p'.store ==> b in p.store || b == p.queue[0];
    assert forall b :: b in p'.queue ==> b in p.queue && b != p.queue[0];
    assert forall j :: 0 <= j < |p.store| ==> p.store[j] in p.store;
  }

  lemma PlaceFreed(p: Pump, i: nat, p': Pump)
    requires PlaceInv(p) && i < |p.store| && p'.freed == p.freed + [p.store[i]]
    requires p'.queue == p.queue && p'.store == p.store && p'.enqueued == p.enqueued
    ensures PlaceInv(p')
    ensures forall j :: 0 <= j < |p.store| ==> (IsSpent(p', j) <==> IsSpent(p, j) || j == i)
  {
    assert p.store[i] in p.store;
  }

  lemma DrainPlace(p: Pump, p': Pump)
    requires PlaceInv(p) && p.queue != []
    requires p' == p.(freed := p.freed + [p.queue[0]], queue := p.queue[1..])
    ensures PlaceInv(p') && forall j :: 0 <= j < |p.store| ==> (IsSpent(p', j) <==> IsSpent(p, j))
  {
    assert p.queue[0] in p.queue;
    assert forall b :: b in p'.queue ==> b in p.queue && b != p.queue[0];
    assert forall j :: 0 <= j < |p.store| ==> p.store[j] in p.store;
  }

  lemma EnqueuePlaces(p: Pump, b: Buffer, p': Pump)
    requires PlaceInv(p) && b !in p.enqueued && b != NIL
    requires p' == p.(queue := p.queue + [b], enqueued := p.enqueued + [b])
    ensures PlaceInv(p')
  {
    assert b !in p.queue && b !in p.store && b !in p.freed;
    assert forall x :: x in p'.queue ==> x in p.queue || x == b;
  }

  /** The place of the store whose buffer the step frees. */
  function Frees(p: Pump, pc: Pc, mv: Move): Option<nat> {
    if mv.Own? && pc.FreePlace? then Some(pc.i)
    else if mv.Tears? && p.disconnect.FreeingPlace? then Some(p.disconnect.i)
    else None
  }

  ghost predicate Takes(p: Pump, pc: Pc, mv: Move) {
    mv.Own? && pc.Fill? && pc.i < pc.n && p.queue != []
  }

  ghost predicate Drains(p: Pump, mv: Move) {
    mv.Tears? && p.disconnect.DrainingQueue? && p.queue != []
  }

  /** Any other move leaves the buffers where they are. */
  lemma MovesNothing(p: Pump, pc: Pc, mv: Move)
    requires CanMove(p, pc, mv) && RangeInv(p, pc) && !Takes(p, pc, mv) && !Drains(p, mv) && !mv.Enqueues?
    requires Frees(p, pc, mv).None?
    ensures var p' := Moved(p, pc, mv).0;
      p'.queue == p.queue && p'.store == p.store && p'.freed == p.freed && p'.enqueued == p.enqueued
    ensures forall m :: Marked(p, pc, mv, m).live == m.live
  {
  }

  lemma FreesMove(p: Pump, pc: Pc, mv: Move, i: nat, m: Marks)
    requires CanMove(p, pc, mv) && RangeInv(p, pc) && Frees(p, pc, mv) == Some(i)
    ensures i < |p.store|
    ensures var p' := Moved(p, pc, mv).0;
      && p'.freed == p.freed + [p.store[i]] && p'.queue == p.queue && p'.store == p.store && p'.enqueued == p.enqueued
      && Marked(p, pc, mv, m).live == m.live - {i}
  {
  }

  lemma PlaceStep(p: Pump, pc: Pc, mv: Move, m: Marks)
    requires CanMove(p, pc, mv) && RangeInv(p, pc) && PlaceInv(p) && SpentInv(p, m)
    ensures PlaceInv(Moved(p, pc, mv).0) && SpentInv(Moved(p, pc, mv).0, Marked(p, pc, mv, m))
  {
    var p' := Moved(p, pc, mv).0;
    if Takes(p, pc, mv) {
      TakePlaces(p, pc.i, p');
    } else if Drains(p, mv) {
      DrainPlace(p, p');
    } else if mv.Enqueues? {
      EnqueuePlaces(p, mv.b, p');
    } else if Frees(p, pc, mv).Some? {
      var i := Frees(p, pc, mv).value;
      FreesMove(p, pc, mv, i, m);
      PlaceFreed(p, i, p');
    } else {
      MovesNothing(p, pc, mv);
    }
  }

  // ---- Freeing twice ----

  /** What has been freed are enqueued buffers, each once. */
  ghost predicate FreedOnce(p: Pump) {
    Distinct(p.freed) && NIL !in p.freed
  }

  ghost predicate FreesDead(p: Pump, pc: Pc, mv: Move, m: Marks) {
    Frees(p, pc, mv).Some? && Frees(p, pc, mv).value !in m.live
  }

  lemma FreedOnceStep(p: Pump, pc: Pc, mv: Move, m: Marks)
    requires CanMove(p, pc, mv) && RangeInv(p, pc) && PlaceInv(p) && SpentInv(p, m)
    ensures FreedOnce(Moved(p, pc, mv).0) <==> FreedOnce(p) && !FreesDead(p, pc, mv, m)
  {
    var p' := Moved(p, pc, mv).0;
    if Drains(p, mv) {
      assert p.queue[0] in p.queue && p.queue[0] in p.enqueued;
      OneMoreFreed(p.freed, p.queue[0]);
    } else if Frees(p, pc, mv).Some? {
      var i := Frees(p, pc, mv).value;
      FreesMove(p, pc, mv, i, m);
      OneMoreFreed(p.freed, p.store[i]);
      assert i !in m.live <==> IsSpent(p, i);
    } else if !Takes(p, pc, mv) && !mv.Enqueues? {
      MovesNothing(p, pc, mv);
    }
  }

  lemma OneMoreFreed(freed: seq<Buffer>, b: Buffer)
    ensures Distinct(freed + [b]) && NIL !in freed + [b] <==>
      Distinct(freed) && NIL !in freed && b !in freed && b != NIL
  {
    var more := freed + [b];
    assert more[|freed|] == b;
    assert forall i :: 0 <= i < |freed| ==> more[i] == freed[i];
    if b in freed {
      var i :| 0 <= i < |freed| && freed[i] == b;
      assert more[i] == more[|freed|];
    }
  }

  // ---- What the positions tell about the places ----

  /** How many places the teardown has freed. */
  function Torn(p: Pump): nat {
    if p.disconnect == NotYet then 0 else p.disconnect.i
  }

  /** The owner is in the loop that frees the batch of a completed send. */
  predicate Freeing(pc: Pc) {
    pc.FreeStore? || pc.FreePlace?
  }

  /** How many places the batch fills that is being loaded or about to be posted. */
  function Loading(pc: Pc): nat {
    match pc
    case Fill(i, _) => i
    case AddCount(n) => n
    case CountSend(n) => n
    case PostSend(n) => n
    case _ => 0
  }

  /** Which places hold a buffer that is still to be freed, by where the owner stands. */
  ghost predicate LiveInv(p: Pump, pc: Pc, m: Marks) {
    match pc
    case FreeStore(j) => forall i: nat :: i in m.live <==> j <= i && Torn(p) <= i < p.bufferCount
    case FreePlace(j) => forall i: nat :: i in m.live <==> j <= i && Torn(p) <= i < p.bufferCount
    case Fill(_, _) | AddCount(_) | CountSend(_) | PostSend(_) =>
      forall i: nat :: i in m.live <==> i < Loading(pc) && i !in m.robbed && i !in m.missed
    case Idle =>
      if p.owner == NoOwner then m.live == {}
      else Intact(p) ==> forall i: nat :: i in m.live <==> i < p.bufferCount && i !in m.robbed
    case _ => m.live == {}
  }

  ghost predicate MarkInv(p: Pump, m: Marks) {
    && (forall i :: i in m.robbed ==> i < Torn(p))
    && (forall i :: i in m.missed ==> i !in m.live)
    && (Intact(p) ==> m.missed == {})
  }

  /** What holds of the count while a batch is in place: a loop that frees it began before the teardown. */
  ghost predicate CountedInv(p: Pump, pc: Pc) {
    && (pc == Idle && p.owner != NoOwner && Intact(p) ==> p.bufferCount >= 1)
    && (Freeing(pc) && Intact(p) ==> p.bufferCount >= 1)
    && (Freeing(pc) && p.disconnect.ResettingCount? ==> p.bufferCount <= Torn(p))
    && (Freeing(pc) && !Intact(p) ==> Torn(p) >= 1 && p.bufferCount == 0)
    && (pc.FreePlace? && Intact(p) ==> pc.i < p.bufferCount)
  }

  ghost predicate StoreInv(p: Pump, pc: Pc, m: Marks) {
    LiveInv(p, pc, m) && MarkInv(p, m) && CountedInv(p, pc)
  }

  lemma StoreOwn(p: Pump, pc: Pc, ok: bool, m: Marks)
    requires CanMove(p, pc, Own(ok)) && RangeInv(p, pc) && StoreInv(p, pc, m)
    requires Intact(p) ==> StageInv(p, pc)
    ensures var (p', pc') := Moved(p, pc, Own(ok)); StoreInv(p', pc', Marked(p, pc, Own(ok), m))
  {
    if pc.Fill? {
      StoreFill(p, pc.i, pc.n, ok, m);
    }
  }

  lemma StoreFill(p: Pump, i: nat, n: nat, ok: bool, m: Marks)
    requires CanMove(p, Fill(i, n), Own(ok)) && RangeInv(p, Fill(i, n)) && StoreInv(p, Fill(i, n), m)
    requires Intact(p) ==> StageInv(p, Fill(i, n))
    ensures var (p', pc') := Moved(p, Fill(i, n), Own(ok)); StoreInv(p', pc', Marked(p, Fill(i, n), Own(ok), m))
  {
    var m' := Marked(p, Fill(i, n), Own(ok), m);
    assert forall j :: j in m'.live <==> j in m.live || (j == i && i < n && p.queue != []);
    assert forall j :: j in m'.robbed <==> j in m.robbed && !(j == i && i < n && p.queue != []);
  }

  lemma StoreTears(p: Pump, pc: Pc, m: Marks)
    requires CanMove(p, pc, Tears) && RangeInv(p, pc) && StoreInv(p, pc, m)
    ensures var (p', pc') := Moved(p, pc, Tears); StoreInv(p', pc', Marked(p, pc, Tears, m))
  {
    if p.disconnect.FreeingPlace? {
      StoreTorn(p, pc, m);
    }
  }

  lemma StoreTorn(p: Pump, pc: Pc, m: Marks)
    requires CanMove(p, pc, Tears) && p.disconnect.FreeingPlace? && StoreInv(p, pc, m)
    ensures var (p', pc') := Moved(p, pc, Tears); StoreInv(p', pc', Marked(p, pc, Tears, m))
  {
    var i := p.disconnect.i;
    var m' := Marked(p, pc, Tears, m);
    assert forall j :: j in m'.live <==> j in m.live && j != i;
    assert forall j :: j in m'.robbed <==> j in m.robbed || j == i;
  }

  lemma StoreCompletes(p: Pump, t: nat, ok: bool, m: Marks)
    requires CanMove(p, Idle, Completes(t, ok)) && RangeInv(p, Idle) && StoreInv(p, Idle, m)
    ensures var (p', pc') := Moved(p, Idle, Completes(t, ok)); StoreInv(p', pc', m)
  {
  }

  lemma StoreOther(p: Pump, pc: Pc, mv: Move, m: Marks)
    requires CanMove(p, pc, mv) && RangeInv(p, pc) && StoreInv(p, pc, m)
    requires mv.Acquires? || mv.Enqueues? || mv == Starts || mv == Stays
    ensures var (p', pc') := Moved(p, pc, mv); StoreInv(p', pc', Marked(p, pc, mv, m))
  {
  }

  lemma StoreStep(p: Pump, pc: Pc, mv: Move, m: Marks)
    requires CanMove(p, pc, mv) && RangeInv(p, pc) && StoreInv(p, pc, m)
    requires Intact(p) ==> StageInv(p, pc)
    ensures var (p', pc') := Moved(p, pc, mv); StoreInv(p', pc', Marked(p, pc, mv, m))
  {
    match mv
    case Own(ok) => StoreOwn(p, pc, ok, m);
    case Tears => StoreTears(p, pc, m);
    case Completes(t, ok) => StoreCompletes(p, t, ok, m);
    case _ => StoreOther(p, pc, mv, m);
  }

  // ---- Who frees again what the other has freed ----

  /** The buffer that was in place 0 has been freed by its owner, if any, and not replaced. */
  predicate Vacant(p: Pump, pc: Pc) {
    match pc
    case Fill(i, _) => i == 0
    case FreeStore(i) => i >= 1
    case FreePlace(i) => i >= 1
    case AddCount(_) | CountSend(_) | PostSend(_) => false
    case Idle => p.owner == NoOwner
    case _ => true
  }

  /** The two steps that free a second time, by position alone: the teardown frees place 0 when the owner has done so;
      the owner frees place 0 when the teardown has done so. */
  predicate Collides(p: Pump, pc: Pc, mv: Move) {
    || (mv.Tears? && p.disconnect == FreeingPlace(0) && Vacant(p, pc))
    || (mv.Own? && pc == FreePlace(0) && Torn(p) >= 1)
  }

  /** A counted batch that nobody but the teardown has begun to free. */
  predicate Untouched(p: Pump, pc: Pc) {
    match pc
    case CountSend(_) | PostSend(_) => true
    case Idle => p.owner != NoOwner
    case FreeStore(i) => i == 0
    case FreePlace(i) => i == 0
    case _ => false
  }

  /** As long as there has been no such step, owner and teardown have not both begun on one batch. */
  ghost predicate ShareInv(p: Pump, pc: Pc) {
    && (Freeing(pc) && pc.i >= 1 ==> Torn(p) == 0)
    && ((p.disconnect.FreeingStore? || p.disconnect.ResettingCount?) && Torn(p) >= 1 ==>
          Untouched(p, pc) || pc.AddCount? || (pc.Fill? && pc.i >= 1))
    && (p.disconnect.FreeingPlace? && Torn(p) >= 1 ==> Untouched(p, pc) && Torn(p) < p.bufferCount)
  }

  lemma ShareStep(p: Pump, pc: Pc, mv: Move)
    requires CanMove(p, pc, mv) && RangeInv(p, pc) && CountedInv(p, pc) && ShareInv(p, pc) && !Collides(p, pc, mv)
    ensures var (p', pc') := Moved(p, pc, mv); ShareInv(p', pc')
  {
  }

  /** While that holds, freeing a place that holds nothing to free is exactly one of the two steps. */
  lemma CollisionFrees(p: Pump, pc: Pc, mv: Move, m: Marks)
    requires CanMove(p, pc, mv) && RangeInv(p, pc) && StoreInv(p, pc, m) && ShareInv(p, pc)
    requires Intact(p) ==> StageInv(p, pc)
    ensures FreesDead(p, pc, mv, m) <==> Collides(p, pc, mv)
  {
  }

  // ---- In every run ----

  ghost predicate CollidesAt(run: seq<State>, actions: seq<Action>, k: nat)
    requires k < |actions| && |run| == |actions| + 1
  {
    Collides(run[k].pump, PcOf(run[k]), MoveOf(run[k], actions[k]))
  }

  ghost predicate NoneCollides(run: seq<State>, actions: seq<Action>, k: nat)
    requires k < |run| == |actions| + 1
  {
    forall j :: 0 <= j < k ==> !CollidesAt(run, actions, j)
  }

  lemma {:induction false} PlacesAlways(run: seq<State>, actions: seq<Action>, k: nat)
    requires Behavior(run, actions) && k < |run|
    ensures PlaceInv(run[k].pump) && SpentInv(run[k].pump, MarksAt(run, actions, k))
    ensures StoreInv(run[k].pump, PcOf(run[k]), MarksAt(run, actions, k))
  {
    if k > 0 {
      PlacesAlways(run, actions, k - 1);
      RunStepMoves(run, actions, k - 1);
      var s, mv, m := run[k - 1], MoveOf(run[k - 1], actions[k - 1]), MarksAt(run, actions, k - 1);
      PlaceStep(s.pump, PcOf(s), mv, m);
      StoreStep(s.pump, PcOf(s), mv, m);
    }
  }

  lemma {:induction false} SharesUntilCollision(run: seq<State>, actions: seq<Action>, k: nat)
    requires Behavior(run, actions) && k < |run| && NoneCollides(run, actions, k)
    ensures ShareInv(run[k].pump, PcOf(run[k]))
  {
    if k > 0 {
      SharesUntilCollision(run, actions, k - 1);
      PlacesAlways(run, actions, k - 1);
      RunStepMoves(run, actions, k - 1);
      assert !CollidesAt(run, actions, k - 1);
      ShareStep(run[k - 1].pump, PcOf(run[k - 1]), MoveOf(run[k - 1], actions[k - 1]));
    }
  }

  /** In every run, with the teardown's statements between any statements of the threads: the buffers freed are
      enqueued ones, and each has been freed once, if and only if neither of owner and teardown has so far
      freed place 0 after the other. */
  lemma {:induction false} FreedTwiceExactly(run: seq<State>, actions: seq<Action>, k: nat)
    requires Behavior(run, actions) && k < |run|
    ensures FreedOnce(run[k].pump) <==> NoneCollides(run, actions, k)
  {
    if k > 0 {
      FreedTwiceExactly(run, actions, k - 1);
      PlacesAlways(run, actions, k - 1);
      RunStepMoves(run, actions, k - 1);
      var s, mv, m := run[k - 1], MoveOf(run[k - 1], actions[k - 1]), MarksAt(run, actions, k - 1);
      FreedOnceStep(s.pump, PcOf(s), mv, m);
      if NoneCollides(run, actions, k - 1) {
        SharesUntilCollision(run, actions, k - 1);
        CollisionFrees(s.pump, PcOf(s), mv, m);
        assert CollidesAt(run, actions, k - 1) <==> FreesDead(s.pump, PcOf(s), mv, m);
      }
    }
  }
}
