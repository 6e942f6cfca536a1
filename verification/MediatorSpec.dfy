/** The two-phase-commit mediator as a machine on values: events in, hook calls out.
    The order in which one event calls the hooks follows an unordered map, so an event's
    output is a set of calls; the class in Mediator.dfy refines each set to a sequence. */
module MediatorSpec {

  type TransactionId = nat
  type ParticipantId = nat
  type Time = int

  const DEFAULT_TIMEOUT: Time := 5000

  datatype ParticipantState = Waiting | Prepared | Committed | ParticipantFailed

  datatype TransactionState = Pending | Preparing | Committing | Completed | Failed | RollingBack

  datatype Participant = Participant(id: ParticipantId, state: ParticipantState, lastUpdate: Time)

  datatype Transaction = Transaction(
    id: TransactionId,
    state: TransactionState,
    participants: map<ParticipantId, Participant>,
    startTime: Time,
    timeout: Time)

  /** A call of one of the virtual functions. */
  datatype Hook =
    | OnStarted(id: TransactionId)
    | OnCompleted(id: TransactionId)
    | OnFailed(id: TransactionId)
    | SendCommit(id: TransactionId, to: ParticipantId)
    | SendRollback(id: TransactionId, to: ParticipantId)

  datatype State = State(active: map<TransactionId, Transaction>, generator: nat)

  /** What happens to a mediator; `now` is what the clock reads during the event. */
  datatype Event =
    | Start(participants: seq<ParticipantId>, timeout: Time, now: Time)
    | Reply(id: TransactionId, participant: ParticipantId, success: bool, now: Time)
    | Abort(id: TransactionId)
    | Timer(now: Time)

  const INITIAL: State := State(map[], 1)

  /** `activeTransactions[id]`: an unknown id yields a default-constructed entry. */
  function Entry(active: map<TransactionId, Transaction>, id: TransactionId): Transaction {
    if id in active then active[id] else Transaction(0, Pending, map[], 0, DEFAULT_TIMEOUT)
  }

  function Enrolled(ids: seq<ParticipantId>): map<ParticipantId, Participant> {
    map p | p in ids :: Participant(p, Waiting, 0)
  }

  predicate AllPrepared(tx: Transaction) {
    forall p :: p in tx.participants ==> tx.participants[p].state == Prepared
  }

  predicate IsExpired(tx: Transaction, now: Time) {
    now - tx.startTime > tx.timeout
  }

  function CommitHooks(id: TransactionId, tx: Transaction): set<Hook> {
    (set p | p in tx.participants.Keys :: SendCommit(id, p)) + {OnCompleted(id)}
  }

  /** The participants whose state is PREPARED. */
  function PreparedOf(tx: Transaction): set<ParticipantId> {
    set p | p in tx.participants && tx.participants[p].state == Prepared
  }

  function RollbackHooks(id: TransactionId, tx: Transaction): set<Hook> {
    (set p | p in PreparedOf(tx) :: SendRollback(id, p)) + {OnFailed(id)}
  }

  function Marked(tx: Transaction, p: ParticipantId, state: ParticipantState, now: Time): Transaction
    requires p in tx.participants
  {
    tx.(participants := tx.participants[p := tx.participants[p].(state := state, lastUpdate := now)])
  }

  function ExpiredIds(active: map<TransactionId, Transaction>, now: Time): set<TransactionId> {
    set id | id in active && IsExpired(active[id], now)
  }

  /** The rollbacks of several transactions. */
  function SweepHooks(active: map<TransactionId, Transaction>, ids: set<TransactionId>): set<Hook> {
    set id, h | id in ids && id in active && h in RollbackHooks(id, active[id]) :: h
  }

  function Started(st: State, e: Event): Transaction
    requires e.Start?
  {
    var entry := Entry(st.active, st.generator + 1);
    entry.(id := st.generator + 1, startTime := e.now, timeout := e.timeout,
           participants := entry.participants + Enrolled(e.participants))
  }

  /** True when the event is a reply that the mediator acts on. */
  predicate Heard(st: State, e: Event) {
    e.Reply? && e.id in st.active && e.participant in st.active[e.id].participants
  }

  /** True when the event is the reply that completes a transaction. */
  predicate Completes(st: State, e: Event) {
    Heard(st, e) && e.success && AllPrepared(Marked(st.active[e.id], e.participant, Prepared, e.now))
  }

  function Next(st: State, e: Event): State {
    match e
    case Start(_, _, _) => State(st.active[st.generator + 1 := Started(st, e)], st.generator + 1)
    case Reply(id, p, success, now) =>
      if !Heard(st, e) then st
      else if !success || Completes(st, e) then st.(active := st.active - {id})
      else st.(active := st.active[id := Marked(st.active[id], p, Prepared, now)])
    case Abort(id) => st.(active := st.active - {id})
    case Timer(now) => st.(active := st.active - ExpiredIds(st.active, now))
  }

  function Output(st: State, e: Event): set<Hook> {
    match e
    case Start(_, _, _) => {OnStarted(st.generator + 1)}
    case Reply(id, p, success, now) =>
      if !Heard(st, e) then {}
      else if !success then RollbackHooks(id, Marked(st.active[id], p, ParticipantFailed, now))
      else if Completes(st, e) then CommitHooks(id, Marked(st.active[id], p, Prepared, now))
      else {}
    case Abort(id) => RollbackHooks(id, Entry(st.active, id))
    case Timer(now) => SweepHooks(st.active, ExpiredIds(st.active, now))
  }

  /** The state after a history of events. */
  function After(st: State, events: seq<Event>): State {
    if events == [] then st else Next(After(st, events[..|events| - 1]), events[|events| - 1])
  }

  /** The state just before event i of a history. */
  function Before(st: State, events: seq<Event>, i: nat): State
    requires i <= |events|
  {
    After(st, events[..i])
  }

  /** The hook calls of event i of a history. */
  function OutputAt(st: State, events: seq<Event>, i: nat): set<Hook>
    requires i < |events|
  {
    Output(Before(st, events, i), events[i])
  }

  lemma BeforeNext(st: State, events: seq<Event>, i: nat)
    requires i < |events|
    ensures Before(st, events, i + 1) == Next(Before(st, events, i), events[i])
  {
    assert events[..i + 1][..i] == events[..i];
  }
}
