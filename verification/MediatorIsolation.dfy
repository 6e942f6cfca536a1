/** Transactions do not interfere: what happens to one is what would happen if the others were not there. */
module MediatorIsolation {
  import opened MediatorSpec
  import opened MediatorRuns

  /** The event is addressed to transaction `id`, starts it, or is a timer sweep. */
  predicate Concerns(st: State, e: Event, id: TransactionId) {
    match e
    case Start(_, _, _) => st.generator + 1 == id
    case Reply(i, _, _, _) => i == id
    case Abort(i) => i == id
    case Timer(_) => true
  }

  /** The events of a history that concern transaction `id`. */
  function OwnEvents(events: seq<Event>, id: TransactionId): seq<Event> {
    if events == [] then []
    else
      var init, e := events[..|events| - 1], events[|events| - 1];
      if Concerns(After(INITIAL, init), e, id) then OwnEvents(init, id) + [e] else OwnEvents(init, id)
  }

  function Visible(hooks: set<Hook>, id: TransactionId): set<Hook> {
    set h | h in hooks && h.id == id
  }

  /** What is heard about transaction `id`, event by event, silent events left out. */
  function HeardAbout(st: State, events: seq<Event>, id: TransactionId): seq<set<Hook>> {
    if events == [] then []
    else
      var init, e := events[..|events| - 1], events[|events| - 1];
      var heard := Visible(Output(After(st, init), e), id);
      HeardAbout(st, init, id) + if heard == {} then [] else [heard]
  }

  /** The mediator on its own with transaction `id`: the next id it gives out is `id`. */
  function Alone(id: TransactionId): State
    requires id > 0
  {
    State(map[], id - 1)
  }

  /** The two mediators agree about transaction `id`. */
  ghost predicate Agrees(st: State, lone: State, id: TransactionId) {
    && lone.active.Keys <= {id}
    && (id in st.active <==> id in lone.active)
    && (id in st.active ==> st.active[id] == lone.active[id])
    && lone.generator == (if st.generator >= id then id else id - 1)
  }

  lemma OtherStep(st: State, lone: State, e: Event, id: TransactionId)
    requires id > 0 && Agrees(st, lone, id) && !Concerns(st, e, id)
    ensures Agrees(Next(st, e), lone, id) && Visible(Output(st, e), id) == {}
  {
  }

  lemma OwnStep(st: State, lone: State, e: Event, id: TransactionId)
    requires id > 0 && Agrees(st, lone, id) && Consistent(st) && Concerns(st, e, id)
    ensures Agrees(Next(st, e), Next(lone, e), id)
    ensures Visible(Output(st, e), id) == Visible(Output(lone, e), id)
  {
    if e.Timer? {
      SweepAgrees(st, lone, e.now, id);
    }
  }

  lemma SweepAgrees(st: State, lone: State, now: Time, id: TransactionId)
    requires Agrees(st, lone, id)
    ensures Agrees(Next(st, Timer(now)), Next(lone, Timer(now)), id)
    ensures Visible(Output(st, Timer(now)), id) == Visible(Output(lone, Timer(now)), id)
  {
    assert id in ExpiredIds(st.active, now) <==> id in ExpiredIds(lone.active, now);
    forall h
      ensures h in Visible(Output(st, Timer(now)), id) <==> h in Visible(Output(lone, Timer(now)), id)
    {
      if h.id == id && id in ExpiredIds(st.active, now) {
        assert h in Output(st, Timer(now)) <==> h in RollbackHooks(id, st.active[id]);
        assert h in Output(lone, Timer(now)) <==> h in RollbackHooks(id, lone.active[id]);
      }
    }
  }

  /** For any history, the outputs and the state of one transaction are those of a mediator that
      sees only that transaction's events and the timer sweeps. */
  lemma {:induction false} Isolated(events: seq<Event>, id: TransactionId)
    requires id > 1
    ensures Agrees(After(INITIAL, events), After(Alone(id), OwnEvents(events, id)), id)
    ensures HeardAbout(INITIAL, events, id) == HeardAbout(Alone(id), OwnEvents(events, id), id)
  {
    if events != [] {
      var init, e := events[..|events| - 1], events[|events| - 1];
      Isolated(init, id);
      var st, lone := After(INITIAL, init), After(Alone(id), OwnEvents(init, id));
      assert events[..|init|] == init && init[..|init|] == init;
      ConsistentAlways(init, |init|);
      if Concerns(st, e, id) {
        OwnStep(st, lone, e, id);
        Appended(Alone(id), OwnEvents(init, id), e, id);
      } else {
        OtherStep(st, lone, e, id);
      }
    }
  }

  lemma Appended(st: State, events: seq<Event>, e: Event, id: TransactionId)
    ensures After(st, events + [e]) == Next(After(st, events), e)
    ensures HeardAbout(st, events + [e], id)
         == HeardAbout(st, events, id)
            + (var v := Visible(Output(After(st, events), e), id); if v == {} then [] else [v])
  {
    assert (events + [e])[..|events|] == events;
  }
}
