/** `Ticker` and its `TimerEvent` objects, with their methods run to completion one at a time. */
module Ticker {
  import opened TickerSteps

  class TimerEvent {
    const timerEventId: Id
    const intervalMs: nat
    var nextTick: nat
    /** When `Fire` has been called. */
    var fired: seq<nat>

    constructor (id: Id, interval: nat)
      ensures timerEventId == id && intervalMs == interval && nextTick == 0 && fired == []
    {
      timerEventId, intervalMs, nextTick, fired := id, interval, 0, [];
    }

    ghost function Value(): TickerSteps.Timer
      reads this
    {
      Timer(intervalMs, nextTick, fired)
    }

    predicate ShouldFire(currentTick: nat)
      reads this
    {
      nextTick <= currentTick
    }

    method Fire(now: nat)
      modifies this`fired
      ensures fired == old(fired) + [now]
    {
      fired := fired + [now];
    }

    method SetNextTick(nowTickMs: nat)
      modifies this`nextTick
      ensures Value() == TickerSteps.SetNextTick(old(Value()), nowTickMs)
    {
      nextTick := nowTickMs + intervalMs;
    }
  }

  class TimerEventCreator {
    var timerEventIdGenerator: Id

    constructor ()
      ensures timerEventIdGenerator == 1
    {
      timerEventIdGenerator := 1;
    }

    method Create(interval: nat) returns (e: TimerEvent)
      modifies this
      ensures fresh(e) && e.timerEventId == old(timerEventIdGenerator)
      ensures timerEventIdGenerator == old(timerEventIdGenerator) + 1
      ensures e.Value() == Timer(interval, 0, [])
    {
      e := new TimerEvent(timerEventIdGenerator, interval);
      timerEventIdGenerator := timerEventIdGenerator + 1;
    }
  }

  class Ticker {
    var nowMs: nat
    var timerEvents: map<Id, TimerEvent>
    var unregisterTargetList: seq<Id>
    var phase: Phase
    /** Every event ever registered. */
    ghost var known: map<Id, TimerEvent>

    ghost predicate Valid()
      reads this
    {
      && (forall id :: id in timerEvents ==> id in known && timerEvents[id] == known[id])
      && (forall id :: id in known ==> known[id].timerEventId == id)
    }

    ghost function Value(): State
      requires Valid()
      reads this, known.Values
    {
      State(nowMs, map id | id in known :: known[id].Value(), timerEvents.Keys, unregisterTargetList, phase)
    }

    constructor (now: nat)
      ensures Valid() && Value() == State(now, map[], {}, [], Asleep)
    {
      nowMs, timerEvents, unregisterTargetList, phase, known := now, map[], [], Asleep, map[];
    }

    /** Registers an event, or sets back the next firing of one already there. */
    method RegisterTimerEvent(e: TimerEvent?) returns (registered: bool)
      requires Valid()
      requires e != null ==> if e.timerEventId in known then known[e.timerEventId] == e else e.fired == []
      modifies this`timerEvents, this`known, if e == null then {} else {e}
      ensures Valid() && registered == (e != null)
      ensures Value() == if e == null then old(Value()) else Step(old(Value()), Register(e.timerEventId, e.intervalMs))
    {
      if e == null {
        return false;
      }
      e.SetNextTick(nowMs + e.intervalMs);
      ghost var id, before, timer := e.timerEventId, old(Value()), e.Value();
      assert Value().timers == if id in known then before.timers[id := timer] else before.timers;
      Emplace(e);
      registered := true;
    }

    method Emplace(e: TimerEvent)
      requires Valid() && (e.timerEventId in known ==> known[e.timerEventId] == e)
      modifies this`timerEvents, this`known
      ensures Valid()
      ensures var s := old(Value());
        Value() == s.(timers := s.timers[e.timerEventId := e.Value()], active := s.active + {e.timerEventId})
    {
      if e.timerEventId !in timerEvents {
        timerEvents := timerEvents[e.timerEventId := e];
      }
      known := known[e.timerEventId := e];
    }

    method UnregisterTimerEvent(id: Id)
      requires Valid()
      modifies this`unregisterTargetList
      ensures Valid() && Value() == Step(old(Value()), Unregister(id))
    {
      if id !in unregisterTargetList {
        unregisterTargetList := unregisterTargetList + [id];
      }
    }

    /** Makes exactly the removals asked for. */
    method UnregisterTimerEventImpl()
      requires Valid() && Enabled(Value(), RemoveAll)
      modifies this`unregisterTargetList, this`timerEvents, this`phase
      ensures Valid() && Value() == Step(old(Value()), RemoveAll)
    {
      DropEvents();
      phase := Awake;
    }

    method DropEvents()
      requires Valid()
      modifies this`unregisterTargetList, this`timerEvents
      ensures Valid() && unregisterTargetList == []
      ensures timerEvents == old(timerEvents) - Dropped(old(unregisterTargetList))
    {
      if unregisterTargetList == [] {
        assert timerEvents - Dropped([]) == timerEvents;
        return;
      }
      var copied := unregisterTargetList;
      unregisterTargetList := [];
      for i := 0 to |copied|
        invariant Valid() && unregisterTargetList == []
        invariant timerEvents == old(timerEvents) - Dropped(copied[..i])
      {
        timerEvents := timerEvents - {copied[i]};
        assert copied[..i + 1] == copied[..i] + [copied[i]];
      }
      assert copied[..|copied|] == copied;
    }

    method BeginTick(now: nat)
      requires Valid() && Enabled(Value(), ReadClock(now))
      modifies this`nowMs, this`phase
      ensures Valid() && Value() == Step(old(Value()), ReadClock(now)) && nowMs == now
    {
      nowMs := now;
      phase := ClockRead;
    }

    /** The timers of a tick with those in `todo` still to be looked at. */
    ghost predicate FiredBut(before: map<Id, TickerSteps.Timer>, todo: set<Id>)
      requires Valid()
      reads this, known.Values
    {
      && before.Keys == known.Keys
      && forall id :: id in known ==>
           known[id].Value() == if id in timerEvents && id !in todo then FireIfDue(before[id], nowMs) else before[id]
    }

    /** Fires the events that are due, in the order of their ids, and sets each to its interval after this
        tick. A handler may ask for removals; they wait for the next tick. */
    method FireEvents(removals: Id -> seq<Id>) returns (fired: seq<Id>)
      requires Valid() && Enabled(Value(), FireAll)
      modifies this`phase, this`unregisterTargetList, known.Values
      ensures Valid() && IsOrder(old(Value()), fired)
      ensures Value() == Run(Step(old(Value()), FireAll), Requests(Asked(removals, fired)))
      ensures forall id :: id in unregisterTargetList <==>
        id in old(unregisterTargetList) || exists i :: 0 <= i < |fired| && id in removals(fired[i])
    {
      ghost var before := Value();
      fired := FireDue(removals);
      AskAllSteps(Step(before, FireAll), Asked(removals, fired));
      AskedExactly(before.dropping, removals, fired);
    }

    method FireDue(removals: Id -> seq<Id>) returns (fired: seq<Id>)
      requires Valid() && Enabled(Value(), FireAll)
      modifies this`phase, this`unregisterTargetList, known.Values
      ensures Valid() && IsOrder(old(Value()), fired)
      ensures Value()
           == Step(old(Value()), FireAll).(dropping := AskAll(old(unregisterTargetList), Asked(removals, fired)))
    {
      ghost var before := Value();
      fired := FireLoop(removals, before.timers);
      phase := Asleep;
      assert Value().timers == Step(before, FireAll).timers;
    }

    method FireLoop(removals: Id -> seq<Id>, ghost before: map<Id, TickerSteps.Timer>) returns (fired: seq<Id>)
      requires Valid() && before == Value().timers
      modifies this`unregisterTargetList, known.Values
      ensures Valid() && FiredBut(before, {})
      ensures Ascending(fired) && forall id :: id in fired <==> id in timerEvents && before[id].next <= nowMs
      ensures unregisterTargetList == AskAll(old(unregisterTargetList), Asked(removals, fired))
    {
      ghost var dropping := unregisterTargetList;
      fired := [];
      var todo := timerEvents.Keys;
      while todo != {}
        invariant Valid() && todo <= timerEvents.Keys && FiredBut(before, todo)
        invariant FiredSoFar(before, todo, fired)
        invariant unregisterTargetList == AskAll(dropping, Asked(removals, fired))
        decreases |todo|
      {
        ghost var least := LeastExists(todo);
        var id :| IsLeast(todo, id);
        fired := FireLeast(id, removals, before, dropping, todo, fired);
        todo := todo - {id};
      }
    }

    /** The body of the loop. */
    method FireLeast(id: Id, removals: Id -> seq<Id>, ghost before: map<Id, TickerSteps.Timer>, ghost dropping: seq<Id>,
                     ghost todo: set<Id>, fired: seq<Id>) returns (fired': seq<Id>)
      requires Valid() && IsLeast(todo, id) && todo <= timerEvents.Keys
      requires FiredBut(before, todo) && FiredSoFar(before, todo, fired)
      requires unregisterTargetList == AskAll(dropping, Asked(removals, fired))
      modifies this`unregisterTargetList, known.Values
      ensures Valid() && FiredBut(before, todo - {id}) && FiredSoFar(before, todo - {id}, fired')
      ensures unregisterTargetList == AskAll(dropping, Asked(removals, fired'))
    {
      assert timerEvents[id] == known[id];
      var due := FireNext(id, before, todo);
      OneMoreFired(before, todo, fired, id, due);
      if !due {
        return fired;
      }
      RunHandler(removals(id));
      AskMore(dropping, Asked(removals, fired), removals(id));
      AskedSnoc(removals, fired, id);
      fired' := fired + [id];
    }

    /** The events fired, with those in `todo` still to be looked at. */
    ghost predicate FiredSoFar(before: map<Id, TickerSteps.Timer>, todo: set<Id>, fired: seq<Id>)
      requires timerEvents.Keys <= before.Keys
      reads this
    {
      && Ascending(fired) && Below(fired, todo)
      && forall id :: id in fired <==> id in timerEvents && id !in todo && before[id].next <= nowMs
    }

    lemma OneMoreFired(before: map<Id, TickerSteps.Timer>, todo: set<Id>, fired: seq<Id>, id: Id, due: bool)
      requires timerEvents.Keys <= before.Keys && todo <= timerEvents.Keys && FiredSoFar(before, todo, fired)
      requires IsLeast(todo, id) && due == (before[id].next <= nowMs)
      ensures FiredSoFar(before, todo - {id}, if due then fired + [id] else fired)
    {
    }

    method FireNext(id: Id, ghost before: map<Id, TickerSteps.Timer>, ghost todo: set<Id>) returns (due: bool)
      requires Valid() && id in todo && todo <= timerEvents.Keys && FiredBut(before, todo)
      modifies timerEvents[id]
      ensures Valid() && FiredBut(before, todo - {id}) && due == (before[id].next <= nowMs)
    {
      assert forall other :: other in known && known[other] == timerEvents[id] ==> other == id;
      due := FireOne(timerEvents[id]);
    }

    method FireOne(e: TimerEvent) returns (due: bool)
      modifies e
      ensures e.Value() == FireIfDue(old(e.Value()), nowMs) && due == (old(e.nextTick) <= nowMs)
    {
      if !e.ShouldFire(nowMs) {
        return false;
      }
      e.Fire(nowMs);
      e.SetNextTick(nowMs);
      return true;
    }

    /** What a handler does to the ticker that runs it. */
    method RunHandler(ids: seq<Id>)
      requires Valid()
      modifies this`unregisterTargetList
      ensures unregisterTargetList == AskAll(old(unregisterTargetList), ids)
    {
      for i := 0 to |ids|
        invariant unregisterTargetList == AskAll(old(unregisterTargetList), ids[..i])
      {
        UnregisterTimerEvent(ids[i]);
        assert ids[..i + 1][..i] == ids[..i];
      }
      assert ids[..|ids|] == ids;
    }
  }

  // ---- Order ----

  ghost predicate Ascending(ids: seq<Id>) {
    forall i, j :: 0 <= i < j < |ids| ==> ids[i] < ids[j]
  }

  ghost predicate Below(ids: seq<Id>, later: set<Id>) {
    forall i, id :: 0 <= i < |ids| && id in later ==> ids[i] < id
  }

  function Asked(removals: Id -> seq<Id>, fired: seq<Id>): seq<Id> {
    if fired == [] then [] else Asked(removals, fired[..|fired| - 1]) + removals(fired[|fired| - 1])
  }

  lemma {:induction false} AskedOfAll(removals: Id -> seq<Id>, fired: seq<Id>)
    ensures forall id :: id in Asked(removals, fired) <==> exists i :: 0 <= i < |fired| && id in removals(fired[i])
  {
    if fired != [] {
      var init, last := fired[..|fired| - 1], fired[|fired| - 1];
      AskedOfAll(removals, init);
      forall id
        ensures (exists i :: 0 <= i < |fired| && id in removals(fired[i])) <==>
          id in removals(last) || exists i :: 0 <= i < |init| && id in removals(init[i])
      {
        if id in removals(last) {
          assert id in removals(fired[|fired| - 1]);
        }
        if i :| 0 <= i < |init| && id in removals(init[i]) {
          assert id in removals(fired[i]);
        }
      }
    }
  }

  /** The removal list afterwards holds what it held and what the handlers of the fired events asked for. */
  lemma AskedExactly(dropping: seq<Id>, removals: Id -> seq<Id>, fired: seq<Id>)
    ensures forall id :: id in AskAll(dropping, Asked(removals, fired)) <==>
      id in dropping || exists i :: 0 <= i < |fired| && id in removals(fired[i])
  {
    AskedOfAll(removals, fired);
    AskAllExactly(dropping, Asked(removals, fired));
  }

  lemma AskedSnoc(removals: Id -> seq<Id>, fired: seq<Id>, id: Id)
    ensures Asked(removals, fired + [id]) == Asked(removals, fired) + removals(id)
  {
    assert (fired + [id])[..|fired|] == fired;
  }

  predicate IsLeast(ids: set<Id>, id: Id) {
    id in ids && forall other :: other in ids ==> id <= other
  }

  lemma {:induction false} LeastExists(ids: set<Id>) returns (least: Id)
    requires ids != {}
    ensures IsLeast(ids, least)
    decreases ids
  {
    least :| least in ids;
    if ids != {least} {
      assert exists other :: other in ids && other != least;
      var rest := LeastExists(ids - {least});
      assert forall other :: other in ids ==> other == least || other in ids - {least};
      if rest < least {
        least := rest;
      }
    }
  }

  ghost predicate IsDue(s: State, id: Id) {
    id in s.timers && id in s.active && s.timers[id].next <= s.now
  }

  /** The events of the map that are due, in ascending order of their ids. */
  ghost predicate IsOrder(s: State, ids: seq<Id>) {
    Ascending(ids) && forall id :: id in ids <==> IsDue(s, id)
  }
}
