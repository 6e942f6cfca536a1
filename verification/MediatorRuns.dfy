/** What two-phase commit guarantees over every history of starts, replies, aborts and timer sweeps. */
module MediatorRuns {
  import opened MediatorSpec

  /** Between events every transaction is pending, its participants are waiting or prepared, and
      unless it has no participants somebody is still waiting. */
  ghost predicate TxConsistent(id: TransactionId, tx: Transaction) {
    && tx.id == id && tx.state == Pending
    && (forall p :: p in tx.participants ==>
          tx.participants[p].id == p && tx.participants[p].state in {Waiting, Prepared})
    && (tx.participants.Keys == {} || !AllPrepared(tx))
  }

  ghost predicate Consistent(st: State) {
    forall id :: id in st.active ==> id <= st.generator && TxConsistent(id, st.active[id])
  }

  lemma StartConsistent(st: State, e: Event)
    requires Consistent(st) && e.Start?
    ensures Consistent(Next(st, e))
  {
    var tx := Started(st, e);
    assert tx.participants == Enrolled(e.participants);
    if tx.participants.Keys != {} {
      var p :| p in tx.participants.Keys;
      assert tx.participants[p].state == Waiting;
    }
  }

  lemma ReplyConsistent(st: State, e: Event)
    requires Consistent(st) && e.Reply?
    ensures Consistent(Next(st, e))
  {
  }

  lemma {:induction false} ConsistentAlways(events: seq<Event>, i: nat)
    requires i <= |events|
    ensures Consistent(Before(INITIAL, events, i))
  {
    if i > 0 {
      ConsistentAlways(events, i - 1);
      BeforeNext(INITIAL, events, i - 1);
      match events[i - 1]
      case Start(_, _, _) => StartConsistent(Before(INITIAL, events, i - 1), events[i - 1]);
      case Reply(_, _, _, _) => ReplyConsistent(Before(INITIAL, events, i - 1), events[i - 1]);
      case _ =>
    }
  }

  /** Transaction `id` is active just before event i. */
  predicate IsActive(events: seq<Event>, i: nat, id: TransactionId)
    requires i <= |events|
  {
    id in Before(INITIAL, events, i).active
  }

  function TxAt(events: seq<Event>, i: nat, id: TransactionId): Transaction
    requires i <= |events| && IsActive(events, i, id)
  {
    Before(INITIAL, events, i).active[id]
  }

  // ---- Ids ----

  lemma {:induction false} GeneratorGrows(events: seq<Event>, i: nat, j: nat)
    requires i <= j <= |events|
    ensures Before(INITIAL, events, i).generator <= Before(INITIAL, events, j).generator
    decreases j - i
  {
    if i < j {
      BeforeNext(INITIAL, events, j - 1);
      GeneratorGrows(events, i, j - 1);
    }
  }

  /** A transaction that is no longer active never becomes active again: ids are not reused. */
  lemma {:induction false} NeverBack(events: seq<Event>, i: nat, j: nat, id: TransactionId)
    requires i <= j <= |events|
    requires id <= Before(INITIAL, events, i).generator && !IsActive(events, i, id)
    ensures !IsActive(events, j, id)
    decreases j - i
  {
    if i < j {
      NeverBack(events, i, j - 1, id);
      GeneratorGrows(events, i, j - 1);
      BeforeNext(INITIAL, events, j - 1);
    }
  }

  /** Each event speaks only about the transaction it starts, about active ones, or about the one it aborts. */
  lemma OutputAbout(st: State, e: Event, h: Hook)
    requires h in Output(st, e)
    ensures (e.Start? && h == OnStarted(st.generator + 1)) || h.id in st.active || e == Abort(h.id)
    ensures !h.OnStarted? || (e.Start? && h.id == st.generator + 1)
  {
  }

  /** A transaction in a request or an outcome is not active afterwards. */
  lemma SpokenIsOver(st: State, e: Event, h: Hook)
    requires h in Output(st, e) && !h.OnStarted?
    ensures h.id !in Next(st, e).active
  {
  }

  // ---- Agreement ----

  /** Every abort of transaction `id` comes while it is active. */
  ghost predicate ProperAborts(events: seq<Event>, id: TransactionId) {
    forall k :: 0 <= k < |events| && events[k] == Abort(id) ==> IsActive(events, k, id)
  }

  /** Event i says something about transaction `id` beyond its start: a request or an outcome. */
  ghost predicate SpeaksOf(events: seq<Event>, i: nat, id: TransactionId)
    requires i < |events|
  {
    exists h :: h in OutputAt(INITIAL, events, i) && h.id == id && !h.OnStarted?
  }

  /** The transaction is over once an event has spoken of it. */
  lemma OverAfter(events: seq<Event>, i: nat, j: nat, id: TransactionId)
    requires i < j <= |events| && SpeaksOf(events, i, id) && id <= Before(INITIAL, events, i).generator
    ensures !IsActive(events, j, id) && id <= Before(INITIAL, events, j).generator
  {
    var h :| h in OutputAt(INITIAL, events, i) && h.id == id && !h.OnStarted?;
    SpokenIsOver(Before(INITIAL, events, i), events[i], h);
    BeforeNext(INITIAL, events, i);
    GeneratorGrows(events, i, i + 1);
    GeneratorGrows(events, i + 1, j);
    NeverBack(events, i + 1, j, id);
  }

  /** Once an event has spoken of a transaction that was ever started, a later event says anything at all
      about it if and only if it aborts that very id; and then it announces a failure, once more. */
  lemma SpokenAgainExactly(events: seq<Event>, i: nat, j: nat, id: TransactionId)
    requires i < j < |events| && SpeaksOf(events, i, id) && id <= Before(INITIAL, events, i).generator
    ensures (exists h :: h in OutputAt(INITIAL, events, j) && h.id == id) <==> events[j] == Abort(id)
    ensures events[j] == Abort(id) ==> OutputAt(INITIAL, events, j) == {OnFailed(id)} && !ProperAborts(events, id)
  {
    OverAfter(events, i, j, id);
    SilentUnlessAborted(events, j, id);
  }

  /** What an event says about a transaction that was never started is the failure of its abort. */
  lemma UnknownOnlyAborted(events: seq<Event>, i: nat, id: TransactionId)
    requires i < |events| && SpeaksOf(events, i, id) && id > Before(INITIAL, events, i).generator
    ensures events[i] == Abort(id) && !IsActive(events, i, id)
  {
    var h :| h in OutputAt(INITIAL, events, i) && h.id == id && !h.OnStarted?;
    ConsistentAlways(events, i);
    OutputAbout(Before(INITIAL, events, i), events[i], h);
  }

  /** Once a request or an outcome of a transaction has gone out, no later event says anything
      about it: one outcome at most, and late replies are ignored. */
  lemma DecidedOnce(events: seq<Event>, i: nat, j: nat, h: Hook, later: Hook)
    requires i < j < |events| && ProperAborts(events, h.id)
    requires h in OutputAt(INITIAL, events, i) && !h.OnStarted?
    requires later in OutputAt(INITIAL, events, j)
    ensures later.id != h.id
  {
    assert SpeaksOf(events, i, h.id);
    if h.id > Before(INITIAL, events, i).generator {
      UnknownOnlyAborted(events, i, h.id);
    } else {
      SpokenAgainExactly(events, i, j, h.id);
    }
  }

  /** Agreement over a whole history: two hook calls about one transaction, other than its start,
      come from one and the same event, so no call is made twice; and they take one side, commit
      requests with completion or rollback requests with failure. What becomes of other transactions,
      their aborts included, does not matter. */
  lemma Agreement(events: seq<Event>, i: nat, j: nat, a: Hook, b: Hook)
    requires i < |events| && j < |events| && a.id == b.id && ProperAborts(events, a.id)
    requires a in OutputAt(INITIAL, events, i) && b in OutputAt(INITIAL, events, j)
    requires !a.OnStarted? && !b.OnStarted?
    ensures i == j
    ensures (a.OnCompleted? || a.SendCommit?) <==> (b.OnCompleted? || b.SendCommit?)
    ensures OnCompleted(a.id) in OutputAt(INITIAL, events, i) || OnFailed(a.id) in OutputAt(INITIAL, events, i)
  {
    if i < j {
      DecidedOnce(events, i, j, a, b);
    } else if j < i {
      DecidedOnce(events, j, i, b, a);
    } else {
      OneSided(Before(INITIAL, events, i), events[i], a);
      OneSided(Before(INITIAL, events, i), events[i], b);
    }
  }

  /** The calls one event makes about a transaction are all for the commit or all for the failure. */
  lemma OneSided(st: State, e: Event, h: Hook)
    requires h in Output(st, e) && !h.OnStarted?
    ensures (h.OnCompleted? || h.SendCommit?) <==> OnCompleted(h.id) in Output(st, e)
    ensures (h.OnFailed? || h.SendRollback?) <==> OnFailed(h.id) in Output(st, e)
  {
    if e.Timer? {
      assert OnFailed(h.id) in RollbackHooks(h.id, st.active[h.id]);
    }
  }

  /** After the decision an event speaks about the transaction exactly when it aborts that very id:
      the abort of an id that is not active announces a failure that is none. */
  lemma {:induction false} SilentUnlessAborted(events: seq<Event>, j: nat, id: TransactionId)
    requires j < |events| && id <= Before(INITIAL, events, j).generator && !IsActive(events, j, id)
    ensures (exists h :: h in OutputAt(INITIAL, events, j) && h.id == id) <==> events[j] == Abort(id)
    ensures events[j] == Abort(id) ==> OutputAt(INITIAL, events, j) == {OnFailed(id)}
    ensures events[j] == Abort(id) ==> Next(Before(INITIAL, events, j), events[j]) == Before(INITIAL, events, j)
  {
    var st := Before(INITIAL, events, j);
    if exists h :: h in OutputAt(INITIAL, events, j) && h.id == id {
      var h :| h in OutputAt(INITIAL, events, j) && h.id == id;
      OutputAbout(st, events[j], h);
    }
    if events[j] == Abort(id) {
      assert RollbackHooks(id, Entry(st.active, id)) == {OnFailed(id)};
      assert st.active - {id} == st.active;
    }
  }

  // ---- Who has reported ----

  /** Participant p reported success in one of the first i events, while the transaction was active. */
  ghost predicate Reported(events: seq<Event>, i: nat, id: TransactionId, p: ParticipantId)
    requires i <= |events|
  {
    i > 0 && (Reported(events, i - 1, id, p) || SuccessAt(events, i - 1, id, p))
  }

  ghost predicate SuccessAt(events: seq<Event>, k: nat, id: TransactionId, p: ParticipantId)
    requires k < |events|
  {
    events[k].Reply? && events[k].id == id && events[k].participant == p && events[k].success && IsActive(events, k, id)
  }

  lemma {:induction false} ReportedSomewhere(events: seq<Event>, i: nat, id: TransactionId, p: ParticipantId)
    requires i <= |events|
    ensures Reported(events, i, id, p) <==> exists k :: 0 <= k < i && SuccessAt(events, k, id, p)
  {
    if i > 0 {
      ReportedSomewhere(events, i - 1, id, p);
    }
  }

  lemma {:induction false} NotReportedBeforeStart(events: seq<Event>, i: nat, id: TransactionId, p: ParticipantId)
    requires i <= |events| && Before(INITIAL, events, i).generator < id
    ensures !Reported(events, i, id, p)
  {
    if i > 0 {
      GeneratorGrows(events, i - 1, i);
      ConsistentAlways(events, i - 1);
      NotReportedBeforeStart(events, i - 1, id, p);
    }
  }

  /** One event changes the state of a surviving participant only by its own success. */
  lemma SurvivorStep(st: State, e: Event, id: TransactionId, p: ParticipantId)
    requires id in st.active && id in Next(st, e).active && Consistent(st)
    ensures Next(st, e).active[id].participants.Keys == st.active[id].participants.Keys
    ensures Next(st, e).active[id].startTime == st.active[id].startTime
    ensures Next(st, e).active[id].timeout == st.active[id].timeout
    ensures p in st.active[id].participants ==>
      (Next(st, e).active[id].participants[p].state == Prepared <==>
        st.active[id].participants[p].state == Prepared
        || (e.Reply? && e.id == id && e.participant == p && e.success))
  {
  }

  /** A transaction that has just become active has only waiting participants. */
  lemma NewcomerWaits(st: State, e: Event, id: TransactionId, p: ParticipantId)
    requires Consistent(st) && id !in st.active && id in Next(st, e).active
    ensures e.Start? && id == st.generator + 1
    ensures p in Next(st, e).active[id].participants ==> Next(st, e).active[id].participants[p].state == Waiting
  {
  }

  /** The claim below, carried over one event from state st. */
  lemma PreparedStep(st: State, e: Event, id: TransactionId, p: ParticipantId, reported: bool, now: bool)
    requires Consistent(st) && id in Next(st, e).active && p in Next(st, e).active[id].participants
    requires id in st.active && p in st.active[id].participants ==>
      (st.active[id].participants[p].state == Prepared <==> reported)
    requires id !in st.active ==> !reported
    requires now <==> e.Reply? && e.id == id && e.participant == p && e.success && id in st.active
    ensures Next(st, e).active[id].participants[p].state == Prepared <==> reported || now
  {
    if id in st.active {
      SurvivorStep(st, e, id, p);
    } else {
      NewcomerWaits(st, e, id, p);
    }
  }

  /** In an active transaction a participant is PREPARED if and only if it has reported success. */
  lemma {:induction false} PreparedIffReported(events: seq<Event>, i: nat, id: TransactionId, p: ParticipantId)
    requires i <= |events| && IsActive(events, i, id) && p in TxAt(events, i, id).participants
    ensures TxAt(events, i, id).participants[p].state == Prepared <==> Reported(events, i, id, p)
  {
    if i > 0 {
      var st := Before(INITIAL, events, i - 1);
      BeforeNext(INITIAL, events, i - 1);
      ConsistentAlways(events, i - 1);
      if id in st.active {
        SurvivorStep(st, events[i - 1], id, p);
        PreparedIffReported(events, i - 1, id, p);
      } else {
        NewcomerWaits(st, events[i - 1], id, p);
        NotReportedBeforeStart(events, i - 1, id, p);
      }
      PreparedStep(st, events[i - 1], id, p, Reported(events, i - 1, id, p), SuccessAt(events, i - 1, id, p));
    }
  }

  /** An active transaction was opened by a start event: it has those participants and that timeout. */
  lemma {:induction false} OpenedByStart(events: seq<Event>, i: nat, id: TransactionId) returns (s: nat)
    requires i <= |events| && IsActive(events, i, id)
    ensures s < i && events[s].Start? && Before(INITIAL, events, s).generator + 1 == id
    ensures TxAt(events, i, id).participants.Keys == (set p | p in events[s].participants)
    ensures TxAt(events, i, id).startTime == events[s].now && TxAt(events, i, id).timeout == events[s].timeout
  {
    var st := Before(INITIAL, events, i - 1);
    BeforeNext(INITIAL, events, i - 1);
    ConsistentAlways(events, i - 1);
    if id in st.active {
      SurvivorStep(st, events[i - 1], id, 0);
      s := OpenedByStart(events, i - 1, id);
    } else {
      s := i - 1;
      assert Started(st, events[s]).participants == Enrolled(events[s].participants);
    }
  }

  // ---- Exactly when a transaction commits or fails ----

  /** A transaction completes at event i if and only if it is active, event i is a success reply of
      one of its participants, and every other participant has reported success already. */
  lemma {:induction false} CompletesExactly(events: seq<Event>, i: nat, id: TransactionId)
    requires i < |events|
    ensures OnCompleted(id) in OutputAt(INITIAL, events, i) <==>
      && IsActive(events, i, id)
      && events[i].Reply? && events[i].id == id && events[i].success
      && events[i].participant in TxAt(events, i, id).participants
      && forall q :: q in TxAt(events, i, id).participants && q != events[i].participant ==> Reported(events, i, id, q)
  {
    var st := Before(INITIAL, events, i);
    OnCompletedOnlyByReply(st, events[i], id);
    if Heard(st, events[i]) && events[i].id == id {
      forall q | q in TxAt(events, i, id).participants
        ensures TxAt(events, i, id).participants[q].state == Prepared <==> Reported(events, i, id, q)
      {
        PreparedIffReported(events, i, id, q);
      }
    }
  }

  lemma OnCompletedOnlyByReply(st: State, e: Event, id: TransactionId)
    ensures OnCompleted(id) in Output(st, e) <==>
      && Heard(st, e) && e.id == id && e.success
      && forall q :: q in st.active[id].participants && q != e.participant ==>
           st.active[id].participants[q].state == Prepared
  {
    if Heard(st, e) && e.id == id && e.success {
      var tx, marked := st.active[id], Marked(st.active[id], e.participant, Prepared, e.now);
      assert forall q :: q in tx.participants ==>
        marked.participants[q].state == if q == e.participant then Prepared else tx.participants[q].state;
    }
  }

  /** Event s starts transaction `id`. */
  ghost predicate StartsAt(events: seq<Event>, s: nat, id: TransactionId)
    requires s < |events|
  {
    events[s].Start? && Before(INITIAL, events, s).generator + 1 == id
  }

  lemma StartedOnce(events: seq<Event>, s: nat, t: nat, id: TransactionId)
    requires s < |events| && t < |events| && StartsAt(events, s, id) && StartsAt(events, t, id)
    ensures s == t
  {
    BeforeNext(INITIAL, events, s);
    BeforeNext(INITIAL, events, t);
    if s < t {
      GeneratorGrows(events, s + 1, t);
    } else if t < s {
      GeneratorGrows(events, t + 1, s);
    }
  }

  /** Participant p is named by an earlier event that starts the transaction. */
  ghost predicate Named(events: seq<Event>, i: nat, id: TransactionId, p: ParticipantId)
    requires i <= |events|
  {
    exists s :: 0 <= s < i && StartsAt(events, s, id) && p in events[s].participants
  }

  lemma NamedExactly(events: seq<Event>, i: nat, id: TransactionId, p: ParticipantId)
    requires i <= |events| && IsActive(events, i, id)
    ensures p in TxAt(events, i, id).participants <==> Named(events, i, id, p)
  {
    var s := OpenedByStart(events, i, id);
    assert StartsAt(events, s, id) && TxAt(events, i, id).participants.Keys == (set q | q in events[s].participants);
    forall t | 0 <= t < i && StartsAt(events, t, id)
      ensures t == s
    {
      StartedOnce(events, s, t, id);
    }
  }

  /** With a completion go commit requests to exactly the participants that the start event named,
      and neither a rollback request nor a failure. Without a completion no commit request goes out. */
  lemma {:induction false} CommitsReachAll(events: seq<Event>, i: nat, id: TransactionId, p: ParticipantId)
    requires i < |events|
    ensures var out := OutputAt(INITIAL, events, i);
      && (SendCommit(id, p) in out <==> OnCompleted(id) in out && Named(events, i, id, p))
      && (OnCompleted(id) in out ==> OnFailed(id) !in out && SendRollback(id, p) !in out)
  {
    CommitStep(Before(INITIAL, events, i), events[i], id, p);
    if IsActive(events, i, id) {
      NamedExactly(events, i, id, p);
    }
  }

  /** No participant is told to commit that has not itself reported success before or just now. */
  lemma CommittedHasReported(events: seq<Event>, i: nat, id: TransactionId, p: ParticipantId)
    requires i < |events| && SendCommit(id, p) in OutputAt(INITIAL, events, i)
    ensures exists k :: 0 <= k <= i && SuccessAt(events, k, id, p)
  {
    CommitsReachAll(events, i, id, p);
    CompletesExactly(events, i, id);
    NamedExactly(events, i, id, p);
    if events[i].participant == p {
      assert SuccessAt(events, i, id, p);
    } else {
      ReportedSomewhere(events, i, id, p);
    }
  }

  lemma CommitStep(st: State, e: Event, id: TransactionId, p: ParticipantId)
    ensures SendCommit(id, p) in Output(st, e) <==>
      OnCompleted(id) in Output(st, e) && id in st.active && p in st.active[id].participants
    ensures OnCompleted(id) in Output(st, e) ==>
      id in st.active && OnFailed(id) !in Output(st, e) && SendRollback(id, p) !in Output(st, e)
  {
  }

  /** A transaction fails at event i if and only if event i aborts it, or it is active and one of its
      participants reports failure or a timer event finds it past its timeout. */
  lemma FailsExactly(events: seq<Event>, i: nat, id: TransactionId)
    requires i < |events|
    ensures OnFailed(id) in OutputAt(INITIAL, events, i) <==>
      || events[i] == Abort(id)
      || (IsActive(events, i, id) && events[i].Reply? && events[i].id == id && !events[i].success
          && events[i].participant in TxAt(events, i, id).participants)
      || (IsActive(events, i, id) && events[i].Timer?
          && events[i].now - TxAt(events, i, id).startTime > TxAt(events, i, id).timeout)
  {
    var st := Before(INITIAL, events, i);
    if events[i].Timer? && id in ExpiredIds(st.active, events[i].now) {
      assert OnFailed(id) in RollbackHooks(id, st.active[id]);
    }
  }

  /** Rollback requests go exactly to the participants that had reported success by then, leaving
      out the one whose failure is the event. */
  lemma {:induction false} RollbacksReachPrepared(events: seq<Event>, i: nat, id: TransactionId, p: ParticipantId)
    requires i < |events|
    ensures SendRollback(id, p) in OutputAt(INITIAL, events, i) <==>
      && OnFailed(id) in OutputAt(INITIAL, events, i)
      && IsActive(events, i, id) && p in TxAt(events, i, id).participants
      && Reported(events, i, id, p)
      && !(events[i].Reply? && events[i].participant == p)
  {
    var st := Before(INITIAL, events, i);
    RollbackStep(st, events[i], id, p);
    if IsActive(events, i, id) && p in TxAt(events, i, id).participants {
      PreparedIffReported(events, i, id, p);
    }
  }

  lemma RollbackStep(st: State, e: Event, id: TransactionId, p: ParticipantId)
    ensures SendRollback(id, p) in Output(st, e) <==>
      && OnFailed(id) in Output(st, e)
      && id in st.active && p in st.active[id].participants
      && st.active[id].participants[p].state == Prepared
      && !(e.Reply? && e.participant == p)
  {
    if e.Timer? && id in ExpiredIds(st.active, e.now) {
      assert forall h :: h in RollbackHooks(id, st.active[id]) ==> h in Output(st, e);
    }
  }

  /** A failure report decides: a transaction that is still active has had none. */
  lemma FailureDecides(events: seq<Event>, k: nat, i: nat, id: TransactionId)
    requires k < i <= |events| && IsActive(events, k, id)
    requires events[k].Reply? && events[k].id == id && !events[k].success
    requires events[k].participant in TxAt(events, k, id).participants
    ensures !IsActive(events, i, id)
  {
    BeforeNext(INITIAL, events, k);
    ConsistentAlways(events, k);
    NeverBack(events, k + 1, i, id);
  }

  // ---- The timer ----

  /** After a sweep at `now` the active transactions are exactly those within their timeout, untouched;
      the others have failed in it, and nothing else was announced. */
  lemma SweepExact(st: State, now: Time, id: TransactionId)
    requires Consistent(st)
    ensures var st' := Next(st, Timer(now));
      && (id in st'.active <==> id in st.active && now - st.active[id].startTime <= st.active[id].timeout)
      && (id in st'.active ==> st'.active[id] == st.active[id])
      && (OnFailed(id) in Output(st, Timer(now)) <==> id in st.active && id !in st'.active)
      && OnCompleted(id) !in Output(st, Timer(now)) && st'.generator == st.generator
  {
    if id in ExpiredIds(st.active, now) {
      assert OnFailed(id) in RollbackHooks(id, st.active[id]);
    }
  }
}
