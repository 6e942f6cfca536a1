/** Periodic timers as a step system. A tick is three steps, since `UnregisterTimerEvent` and
    `RegisterTimerEvent` may come between its reading of the clock, its removals and its firing loop. */
module TickerSteps {

  type Id = nat

  datatype Timer = Timer(interval: nat, next: nat, fired: seq<nat>)

  datatype State = State(
    now: nat,
    /** Every timer ever registered, and which of them are in the event map. */
    timers: map<Id, Timer>,
    active: set<Id>,
    dropping: seq<Id>,
    phase: Phase)

  /** Between ticks, past the reading of the clock, and past the removals. */
  datatype Phase = Asleep | ClockRead | Awake

  datatype Action =
    | Register(id: Id, interval: nat)
    | Unregister(id: Id)
    | ReadClock(now: nat)
    | RemoveAll
    | FireAll

  function SetNextTick(t: Timer, now: nat): Timer {
    t.(next := now + t.interval)
  }

  function FireIfDue(t: Timer, now: nat): Timer {
    if t.next <= now then SetNextTick(t.(fired := t.fired + [now]), now) else t
  }

  ghost function Dropped(ids: seq<Id>): set<Id> {
    set id | id in ids
  }

  ghost predicate Enabled(s: State, a: Action) {
    match a
    case Register(id, interval) => id in s.timers ==> s.timers[id].interval == interval
    case Unregister(_) => true
    case ReadClock(now) => s.phase == Asleep && s.now <= now
    case RemoveAll => s.phase == ClockRead
    case FireAll => s.phase == Awake
  }

  ghost function Step(s: State, a: Action): State {
    match a
    case Register(id, interval) =>
      var t := if id in s.timers then s.timers[id] else Timer(interval, 0, []);
      s.(timers := s.timers[id := SetNextTick(t, s.now + t.interval)], active := s.active + {id})
    case Unregister(id) =>
      if id in s.dropping then s else s.(dropping := s.dropping + [id])
    case ReadClock(now) =>
      s.(now := now, phase := ClockRead)
    case RemoveAll =>
      s.(active := s.active - Dropped(s.dropping), dropping := [], phase := Awake)
    case FireAll =>
      s.(timers := map id | id in s.timers :: if id in s.active then FireIfDue(s.timers[id], s.now) else s.timers[id],
         phase := Asleep)
  }

  ghost predicate Runs(s: State, actions: seq<Action>)
    decreases |actions|
  {
    actions == [] || (Enabled(s, actions[0]) && Runs(Step(s, actions[0]), actions[1..]))
  }

  ghost function Run(s: State, actions: seq<Action>): State
    decreases |actions|
  {
    if actions == [] then s else Run(Step(s, actions[0]), actions[1..])
  }

  /** What the clock read before each firing loop of a run: a ticker that shows `now` and reads what the ticks say. */
  function TickTimes(now: nat, actions: seq<Action>): seq<nat>
    decreases |actions|
  {
    if actions == [] then []
    else
      match actions[0]
      case ReadClock(reading) => TickTimes(reading, actions[1..])
      case FireAll => [now] + TickTimes(now, actions[1..])
      case _ => TickTimes(now, actions[1..])
  }

  /** What the clock of a ticker shows after a run. */
  function LastReading(now: nat, actions: seq<Action>): nat
    decreases |actions|
  {
    if actions == [] then now
    else LastReading(if actions[0].ReadClock? then actions[0].now else now, actions[1..])
  }

  lemma {:induction false} ShowsLastReading(s: State, actions: seq<Action>)
    ensures Run(s, actions).now == LastReading(s.now, actions)
    decreases |actions|
  {
    if actions != [] {
      ShowsLastReading(Step(s, actions[0]), actions[1..]);
    }
  }

  /** A whole tick: it can always run between ticks, takes off the timers whose removal was asked for, and fires
      each of the others that is due at the reading, setting it to its interval after that. */
  lemma WholeTick(s: State, now: nat, id: Id)
    requires s.phase == Asleep && s.now <= now && id in s.timers
    ensures var tick := [ReadClock(now), RemoveAll, FireAll]; var t, s' := s.timers[id], Run(s, tick);
      && Runs(s, tick) && s'.phase == Asleep && s'.now == now && s'.dropping == [] && id in s'.timers
      && (id in s'.active <==> id in s.active && id !in s.dropping)
      && s'.timers[id] == if id in s'.active && t.next <= now
                          then Timer(t.interval, now + t.interval, t.fired + [now]) else t
  {
    var s1 := Step(s, ReadClock(now));
    var s2 := Step(s1, RemoveAll);
    assert Run(s2, [FireAll]) == Run(Step(s2, FireAll), []);
    assert Run(s1, [RemoveAll, FireAll]) == Run(s2, [FireAll]);
    assert Runs(s2, [FireAll]) && Runs(s1, [RemoveAll, FireAll]);
  }

  /** The removal list after several removals have been asked for. */
  function AskAll(dropping: seq<Id>, ids: seq<Id>): seq<Id> {
    if ids == [] then dropping
    else
      var before, id := AskAll(dropping, ids[..|ids| - 1]), ids[|ids| - 1];
      if id in before then before else before + [id]
  }

  /** That is what so many `Unregister` steps make of it, and they change nothing else. */
  lemma {:induction false} AskAllSteps(s: State, ids: seq<Id>)
    ensures Runs(s, Requests(ids)) && Run(s, Requests(ids)) == s.(dropping := AskAll(s.dropping, ids))
    decreases |ids|
  {
    if ids != [] {
      assert Requests(ids)[1..] == Requests(ids[1..]);
      AskAllSteps(Step(s, Unregister(ids[0])), ids[1..]);
      AskFirst(s.dropping, ids);
    }
  }

  function Requests(ids: seq<Id>): seq<Action> {
    seq(|ids|, i requires 0 <= i < |ids| => Unregister(ids[i]))
  }

  lemma {:induction false} AskAllExactly(dropping: seq<Id>, ids: seq<Id>)
    ensures forall id :: id in AskAll(dropping, ids) <==> id in dropping || id in ids
    decreases |ids|
  {
    if ids != [] {
      AskAllExactly(dropping, ids[..|ids| - 1]);
      assert ids == ids[..|ids| - 1] + [ids[|ids| - 1]];
    }
  }

  lemma {:induction false} AskFirst(dropping: seq<Id>, ids: seq<Id>)
    requires ids != []
    ensures AskAll(dropping, ids) == AskAll(if ids[0] in dropping then dropping else dropping + [ids[0]], ids[1..])
    decreases |ids|
  {
    if |ids| > 1 {
      AskFirst(dropping, ids[..|ids| - 1]);
      assert ids[..|ids| - 1][1..] == ids[1..][..|ids| - 2];
    } else {
      assert ids[..0] == [];
    }
  }

  lemma {:induction false} AskMore(dropping: seq<Id>, ids: seq<Id>, more: seq<Id>)
    ensures AskAll(dropping, ids + more) == AskAll(AskAll(dropping, ids), more)
  {
    if more == [] {
      assert ids + more == ids;
    } else {
      AskMore(dropping, ids, more[..|more| - 1]);
      assert (ids + more)[..|ids + more| - 1] == ids + more[..|more| - 1];
    }
  }

  predicate About(a: Action, id: Id) {
    (a.Register? || a.Unregister?) && a.id == id
  }

  ghost predicate Wellformed(s: State) {
    s.active <= s.timers.Keys
  }

  /** Firing times of one timer at given tick times. */
  function Fires(next: nat, interval: nat, times: seq<nat>): seq<nat>
    decreases |times|
  {
    if times == [] then []
    else if next <= times[0] then [times[0]] + Fires(times[0] + interval, interval, times[1..])
    else Fires(next, interval, times[1..])
  }

  /** What one timer does depends on the tick times alone: no other registration, removal or timer
      changes when it fires. */
  lemma {:induction false} FiresAlone(s: State, actions: seq<Action>, id: Id)
    requires Wellformed(s) && Runs(s, actions) && id in s.active && id !in s.dropping
    requires forall i :: 0 <= i < |actions| ==> !About(actions[i], id)
    ensures var t, t' := s.timers[id], Run(s, actions).timers;
      && id in t'
      && t'[id].fired == t.fired + Fires(t.next, t.interval, TickTimes(s.now, actions))
    decreases |actions|
  {
    if actions != [] {
      var next := Step(s, actions[0]);
      assert !About(actions[0], id);
      AloneStep(s, actions[0], id);
      FiresAlone(next, actions[1..], id);
      var t, times := s.timers[id], TickTimes(next.now, actions[1..]);
      if actions[0].FireAll? {
        assert ([s.now] + times)[1..] == times;
        assert t.fired + ([s.now] + Fires(s.now + t.interval, t.interval, times))
            == t.fired + [s.now] + Fires(s.now + t.interval, t.interval, times);
      } else {
        assert [] + times == times;
      }
    }
  }

  lemma AloneStep(s: State, a: Action, id: Id)
    requires Wellformed(s) && id in s.active && id !in s.dropping && !About(a, id)
    ensures var s' := Step(s, a);
      && Wellformed(s') && id in s'.active && id !in s'.dropping
      && s'.timers[id] == if a.FireAll? then FireIfDue(s.timers[id], s.now) else s.timers[id]
  {
  }

  /** After a registration, whatever follows, nothing fires within two intervals of the clock it read. */
  lemma {:induction false} FirstFireTwoIntervalsLater(s: State, id: Id, interval: nat, actions: seq<Action>)
    requires Wellformed(s) && Enabled(s, Register(id, interval)) && Runs(Step(s, Register(id, interval)), actions)
    ensures var s1 := Step(s, Register(id, interval)); var before, s' := s1.timers[id].fired, Run(s1, actions);
      id in s'.timers && Late(s'.timers[id], before, s.now + 2 * interval)
  {
    var s1 := Step(s, Register(id, interval));
    LateRun(s1, id, s1.timers[id].fired, s.now, actions);
  }

  /** Everything a timer fired beyond a given list, and its next firing, is at `from` or later. */
  ghost predicate Late(t: Timer, before: seq<nat>, from: nat) {
    && before <= t.fired && from <= t.next
    && forall i :: |before| <= i < |t.fired| ==> from <= t.fired[i]
  }

  lemma {:induction false} LateRun(s: State, id: Id, before: seq<nat>, start: nat, actions: seq<Action>)
    requires Runs(s, actions) && id in s.timers && start <= s.now
    requires Late(s.timers[id], before, start + 2 * s.timers[id].interval)
    ensures var s' := Run(s, actions);
      && id in s'.timers
      && Late(s'.timers[id], before, start + 2 * s.timers[id].interval)
    decreases |actions|
  {
    if actions != [] {
      LateRun(Step(s, actions[0]), id, before, start, actions[1..]);
    }
  }

  /** Once its removal is asked for, a timer fires no more, or once more when a tick is already past
      its removals. */
  lemma {:induction false} UnregisteredIsSilent(s: State, id: Id, actions: seq<Action>)
    requires Wellformed(s) && Runs(s, actions) && id in s.timers && (id in s.dropping || id !in s.active)
    requires forall i :: 0 <= i < |actions| ==> !(actions[i].Register? && actions[i].id == id)
    ensures var s' := Run(s, actions);
      && id in s'.timers
      && s.timers[id].fired <= s'.timers[id].fired
      && |s'.timers[id].fired| <= |s.timers[id].fired| + (if s.phase == Awake && id in s.active then 1 else 0)
    decreases |actions|
  {
    if actions != [] {
      assert !(actions[0].Register? && actions[0].id == id);
      UnregisteredIsSilent(Step(s, actions[0]), id, actions[1..]);
    }
  }

  /** So it is after the step that asks for the removal. */
  lemma UnregisterSilences(s: State, id: Id, actions: seq<Action>)
    requires Wellformed(s) && id in s.timers && Runs(Step(s, Unregister(id)), actions)
    requires forall i :: 0 <= i < |actions| ==> !(actions[i].Register? && actions[i].id == id)
    ensures var s' := Run(Step(s, Unregister(id)), actions);
      && id in s'.timers
      && |s'.timers[id].fired| <= |s.timers[id].fired| + (if s.phase == Awake && id in s.active then 1 else 0)
  {
    UnregisteredIsSilent(Step(s, Unregister(id)), id, actions);
  }

  /** A timer whose removal is due, and that no tick past its removals is about to fire, never fires. */
  lemma {:induction false} LostIsSilent(s: State, id: Id, actions: seq<Action>)
    requires Wellformed(s) && Runs(s, actions) && id in s.timers && (id in s.dropping || id !in s.active)
    requires s.phase == Awake && id in s.active ==> s.now < s.timers[id].next
    requires forall i :: 0 <= i < |actions| ==> !(actions[i].Register? && actions[i].id == id)
    ensures id in Run(s, actions).timers && Run(s, actions).timers[id].fired == s.timers[id].fired
    decreases |actions|
  {
    if actions != [] {
      assert !(actions[0].Register? && actions[0].id == id);
      LostIsSilent(Step(s, actions[0]), id, actions[1..]);
    }
  }

  /** Registering a timer does not call off a removal still on the list, be it asked for before or in the course
      of a tick: the timer is registered, and yet never fires. */
  lemma RegisterIsLost(s: State, id: Id, interval: nat, actions: seq<Action>)
    requires Wellformed(s) && id in s.dropping && interval > 0 && Enabled(s, Register(id, interval))
    requires Runs(Step(s, Register(id, interval)), actions)
    requires forall i :: 0 <= i < |actions| ==> !(actions[i].Register? && actions[i].id == id)
    ensures var s1 := Step(s, Register(id, interval));
      && id in s1.active && id in Run(s1, actions).timers
      && Run(s1, actions).timers[id].fired == s1.timers[id].fired
  {
    LostIsSilent(Step(s, Register(id, interval)), id, actions);
  }

  /** A run after the registration that asks for nothing more about that timer. */
  ghost predicate LeftAlone(s1: State, actions: seq<Action>, id: Id) {
    Runs(s1, actions) && forall i :: 0 <= i < |actions| ==> !About(actions[i], id)
  }

  /** What a registration is worth, when nothing more is asked for that timer: it fires as its interval and the tick
      times say if its id is not on the removal list, and never if it is. */
  lemma RegistrationExactly(s: State, id: Id, interval: nat, actions: seq<Action>, s1: State)
    requires Wellformed(s) && interval > 0 && Enabled(s, Register(id, interval))
    requires s1 == Step(s, Register(id, interval)) && LeftAlone(s1, actions, id) && id in s1.timers
    ensures id in Run(s1, actions).timers
    ensures var before, fires := s1.timers[id].fired, Fires(s.now + 2 * interval, interval, TickTimes(s.now, actions));
      Run(s1, actions).timers[id].fired == if id in s.dropping then before else before + fires
  {
    RegisteredAt(s, id, interval, s1);
    if id in s.dropping {
      assert forall i :: 0 <= i < |actions| ==> !About(actions[i], id);
      LostIsSilent(s1, id, actions);
    } else {
      FiresAlone(s1, actions, id);
    }
  }

  lemma RegisteredAt(s: State, id: Id, interval: nat, s1: State)
    requires Wellformed(s) && Enabled(s, Register(id, interval)) && s1 == Step(s, Register(id, interval))
    ensures Wellformed(s1) && id in s1.active && s1.dropping == s.dropping && s1.now == s.now
    ensures s1.timers[id].next == s.now + 2 * interval && s1.timers[id].interval == interval
  {
  }

  /** So it takes effect if and only if its id is not on the removal list, once a tick comes when it is due. */
  lemma RegistrationTakesEffect(s: State, id: Id, interval: nat, actions: seq<Action>, s1: State)
    requires Wellformed(s) && interval > 0 && Enabled(s, Register(id, interval))
    requires s1 == Step(s, Register(id, interval)) && LeftAlone(s1, actions, id) && id in s1.timers
    requires Fires(s.now + 2 * interval, interval, TickTimes(s.now, actions)) != []
    ensures id in Run(s1, actions).timers
    ensures Run(s1, actions).timers[id].fired != s1.timers[id].fired <==> id !in s.dropping
  {
    RegistrationExactly(s, id, interval, actions, s1);
  }
}
