/** The life of a transaction told by the events of a history alone: which start opens it, when it ends and how. */
module MediatorLife {
  import opened MediatorSpec
  import opened MediatorRuns

  // ---- Active until spoken of ----

  /** No event between the two has spoken of the transaction. */
  ghost predicate Unspoken(events: seq<Event>, s: nat, i: nat, id: TransactionId)
    requires i <= |events|
  {
    forall k :: s < k < i ==> !SpeaksOf(events, k, id)
  }

  lemma ActiveStep(st: State, e: Event, id: TransactionId)
    requires Consistent(st)
    ensures id in Next(st, e).active <==>
      || (e.Start? && id == st.generator + 1)
      || (id in st.active && forall h :: h in Output(st, e) && h.id == id ==> h.OnStarted?)
  {
    if id in st.active {
      if e.Timer? && id in ExpiredIds(st.active, e.now) {
        assert OnFailed(id) in RollbackHooks(id, st.active[id]);
      }
      if (Heard(st, e) && e.id == id && !e.success) || e == Abort(id) {
        assert OnFailed(id) in Output(st, e);
      }
      if Completes(st, e) && e.id == id {
        assert OnCompleted(id) in Output(st, e);
      }
    }
  }

  /** Event s starts the transaction, and nothing up to event i has spoken of it. */
  ghost predicate UnspokenSince(events: seq<Event>, s: nat, i: nat, id: TransactionId)
    requires i <= |events|
  {
    s < i && StartsAt(events, s, id) && Unspoken(events, s, i, id)
  }

  lemma UnspokenNext(events: seq<Event>, s: nat, i: nat, id: TransactionId)
    requires i < |events|
    ensures UnspokenSince(events, s, i + 1, id) <==>
      (s == i && StartsAt(events, i, id)) || (UnspokenSince(events, s, i, id) && !SpeaksOf(events, i, id))
  {
  }

  ghost predicate Opened(events: seq<Event>, i: nat, id: TransactionId)
    requires i <= |events|
  {
    exists s: nat :: UnspokenSince(events, s, i, id)
  }

  lemma OpenedStep(events: seq<Event>, i: nat, id: TransactionId)
    requires i < |events|
    ensures Opened(events, i + 1, id) <==>
      StartsAt(events, i, id) || (Opened(events, i, id) && !SpeaksOf(events, i, id))
  {
    UnspokenNext(events, i, i, id);
    if Opened(events, i, id) {
      var s: nat :| UnspokenSince(events, s, i, id);
      UnspokenNext(events, s, i, id);
    }
    if Opened(events, i + 1, id) {
      var s: nat :| UnspokenSince(events, s, i + 1, id);
      UnspokenNext(events, s, i, id);
    }
  }

  lemma ActiveNext(events: seq<Event>, i: nat, id: TransactionId)
    requires i < |events|
    ensures IsActive(events, i + 1, id) <==>
      StartsAt(events, i, id) || (IsActive(events, i, id) && !SpeaksOf(events, i, id))
  {
    ConsistentAlways(events, i);
    BeforeNext(INITIAL, events, i);
    ActiveStep(Before(INITIAL, events, i), events[i], id);
  }

  /** A transaction is active if and only if some event has started it and none since has spoken of a request or an
      outcome: from right after its start until then. */
  lemma {:induction false} ActiveExactly(events: seq<Event>, i: nat, id: TransactionId)
    requires i <= |events|
    ensures IsActive(events, i, id) <==> exists s: nat :: UnspokenSince(events, s, i, id)
  {
    if i > 0 {
      ActiveExactly(events, i - 1, id);
      ActiveNext(events, i - 1, id);
      OpenedStep(events, i - 1, id);
    }
  }

  // ---- The same from the events alone ----

  /** How many of the first i events start a transaction. */
  function Starts(events: seq<Event>, i: nat): nat
    requires i <= |events|
  {
    if i == 0 then 0 else Starts(events, i - 1) + if events[i - 1].Start? then 1 else 0
  }

  /** The transaction that event s starts: the first id is 2. */
  function IdOf(events: seq<Event>, s: nat): TransactionId
    requires s < |events|
  {
    2 + Starts(events, s)
  }

  lemma {:induction false} GeneratorCounts(events: seq<Event>, i: nat)
    requires i <= |events|
    ensures Before(INITIAL, events, i).generator == 1 + Starts(events, i)
  {
    if i > 0 {
      GeneratorCounts(events, i - 1);
      BeforeNext(INITIAL, events, i - 1);
    }
  }

  /** A success reply of the participant to the transaction that s starts, after s and before k. */
  predicate RepliedOk(events: seq<Event>, s: nat, k: nat, p: ParticipantId)
    requires s < k <= |events|
  {
    exists j :: s < j < k && IsSuccess(events[j], IdOf(events, s), p)
  }

  predicate IsSuccess(e: Event, id: TransactionId, p: ParticipantId) {
    e.Reply? && e.id == id && e.participant == p && e.success
  }

  /** Event k is the success reply of a named participant, all others having replied so. */
  predicate CompletesAt(events: seq<Event>, s: nat, k: nat)
    requires s < k < |events| && events[s].Start?
  {
    var e, named := events[k], events[s].participants;
    && e.Reply? && e.id == IdOf(events, s) && e.success && e.participant in named
    && forall q :: q in named && q != e.participant ==> RepliedOk(events, s, k, q)
  }

  /** Event k rolls the transaction back, is the failure reply of a named participant, or a sweep past its timeout. */
  predicate FailsAt(events: seq<Event>, s: nat, k: nat)
    requires s < k < |events| && events[s].Start?
  {
    var e, id := events[k], IdOf(events, s);
    || e == Abort(id)
    || (e.Reply? && e.id == id && !e.success && e.participant in events[s].participants)
    || (e.Timer? && e.now - events[s].now > events[s].timeout)
  }

  /** Neither has happened between the two. */
  ghost predicate Undecided(events: seq<Event>, s: nat, i: nat)
    requires s < i <= |events| && events[s].Start?
  {
    forall k :: s < k < i ==> !CompletesAt(events, s, k) && !FailsAt(events, s, k)
  }

  lemma StartOf(events: seq<Event>, s: nat, id: TransactionId)
    requires s < |events|
    ensures StartsAt(events, s, id) <==> events[s].Start? && IdOf(events, s) == id
  {
    GeneratorCounts(events, s);
  }

  lemma StaysActive(events: seq<Event>, s: nat, j: nat, i: nat, id: TransactionId)
    requires s < j <= i <= |events| && StartsAt(events, s, id) && IsActive(events, i, id)
    ensures IsActive(events, j, id)
  {
    BeforeNext(INITIAL, events, s);
    GeneratorGrows(events, s + 1, j);
    if !IsActive(events, j, id) {
      NeverBack(events, j, i, id);
    }
  }

  /** In an active transaction a participant has been heard to report success exactly if it has replied so since
      the start. */
  lemma ReportedIsReplied(events: seq<Event>, s: nat, i: nat, id: TransactionId, p: ParticipantId)
    requires s < i <= |events| && StartsAt(events, s, id) && IsActive(events, i, id)
    ensures Reported(events, i, id, p) <==> RepliedOk(events, s, i, p)
  {
    ReportedSomewhere(events, i, id, p);
    StartOf(events, s, id);
    if Reported(events, i, id, p) {
      var k :| 0 <= k < i && SuccessAt(events, k, id, p);
      if k <= s {
        ConsistentAlways(events, k);
        GeneratorGrows(events, k, s);
        assert false;
      }
      assert IsSuccess(events[k], IdOf(events, s), p);
    }
    if RepliedOk(events, s, i, p) {
      var j :| s < j < i && IsSuccess(events[j], IdOf(events, s), p);
      StaysActive(events, s, j, i, id);
      assert SuccessAt(events, j, id, p);
    }
  }

  /** What event i makes of an active transaction. */
  lemma EndsExactly(events: seq<Event>, s: nat, i: nat, id: TransactionId)
    requires s < i < |events| && StartsAt(events, s, id) && IsActive(events, i, id)
    ensures OnCompleted(id) in OutputAt(INITIAL, events, i) <==> CompletesAt(events, s, i)
    ensures OnFailed(id) in OutputAt(INITIAL, events, i) <==> FailsAt(events, s, i)
  {
    StartOf(events, s, id);
    var s' := OpenedByStart(events, i, id);
    StartedOnce(events, s, s', id);
    assert forall q :: q in TxAt(events, i, id).participants <==> q in events[s].participants;
    CompletesExactly(events, i, id);
    FailsExactly(events, i, id);
    forall q
      ensures Reported(events, i, id, q) <==> RepliedOk(events, s, i, q)
    {
      ReportedIsReplied(events, s, i, id, q);
    }
  }

  lemma SpeaksExactly(events: seq<Event>, i: nat, id: TransactionId)
    requires i < |events|
    ensures SpeaksOf(events, i, id) <==>
      OnCompleted(id) in OutputAt(INITIAL, events, i) || OnFailed(id) in OutputAt(INITIAL, events, i)
  {
    if SpeaksOf(events, i, id) {
      var h :| h in OutputAt(INITIAL, events, i) && h.id == id && !h.OnStarted?;
      OneSided(Before(INITIAL, events, i), events[i], h);
    }
  }

  lemma {:induction false} UnspokenIsUndecided(events: seq<Event>, s: nat, i: nat, id: TransactionId)
    requires s < i <= |events| && StartsAt(events, s, id)
    ensures Unspoken(events, s, i, id) <==> Undecided(events, s, i)
    decreases i
  {
    if s + 1 < i {
      UnspokenIsUndecided(events, s, i - 1, id);
      if Unspoken(events, s, i - 1, id) {
        ActiveExactly(events, i - 1, id);
        assert UnspokenSince(events, s, i - 1, id);
        EndsExactly(events, s, i - 1, id);
        SpeaksExactly(events, i - 1, id);
      }
      UnspokenStep(events, s, i - 1, id);
    }
  }

  lemma UnspokenStep(events: seq<Event>, s: nat, i: nat, id: TransactionId)
    requires s < i < |events| && events[s].Start?
    ensures Unspoken(events, s, i + 1, id) <==> Unspoken(events, s, i, id) && !SpeaksOf(events, i, id)
    ensures Undecided(events, s, i + 1) <==>
      Undecided(events, s, i) && !CompletesAt(events, s, i) && !FailsAt(events, s, i)
  {
  }

  /** Event s starts the transaction, and nothing up to event i has ended it. */
  ghost predicate OpenSince(events: seq<Event>, s: nat, i: nat, id: TransactionId)
    requires i <= |events|
  {
    s < i && events[s].Start? && IdOf(events, s) == id && Undecided(events, s, i)
  }

  /** A transaction is active if and only if an event has started it and no event since was its last success reply, a
      failure reply, a roll-back or a sweep past its timeout. Ids count the starts. */
  lemma OpenExactly(events: seq<Event>, i: nat, id: TransactionId)
    requires i <= |events|
    ensures IsActive(events, i, id) <==> exists s: nat :: OpenSince(events, s, i, id)
  {
    ActiveExactly(events, i, id);
    forall s: nat
      ensures UnspokenSince(events, s, i, id) <==> OpenSince(events, s, i, id)
    {
      if s < i {
        StartOf(events, s, id);
        if StartsAt(events, s, id) {
          UnspokenIsUndecided(events, s, i, id);
        }
      }
    }
  }

  /** A transaction completes at event i if and only if an event has started it, none since has ended it, and event i is
      the success reply of a participant that was named then, all others having replied so since. */
  lemma CompletesFromEvents(events: seq<Event>, i: nat, id: TransactionId)
    requires i < |events|
    ensures OnCompleted(id) in OutputAt(INITIAL, events, i) <==>
      exists s: nat :: OpenSince(events, s, i, id) && CompletesAt(events, s, i)
  {
    OpenExactly(events, i, id);
    CompletesExactly(events, i, id);
    forall s: nat | OpenSince(events, s, i, id)
      ensures OnCompleted(id) in OutputAt(INITIAL, events, i) <==> CompletesAt(events, s, i)
    {
      StartOf(events, s, id);
      EndsExactly(events, s, i, id);
    }
  }

  /** A transaction fails at event i if and only if event i rolls that id back, or an event has started it, none has
      ended it, and event i is a failure reply of a named participant or a sweep past its timeout. */
  lemma FailsFromEvents(events: seq<Event>, i: nat, id: TransactionId)
    requires i < |events|
    ensures OnFailed(id) in OutputAt(INITIAL, events, i) <==>
      events[i] == Abort(id) || exists s: nat :: OpenSince(events, s, i, id) && FailsAt(events, s, i)
  {
    OpenExactly(events, i, id);
    FailsExactly(events, i, id);
    forall s: nat | OpenSince(events, s, i, id)
      ensures OnFailed(id) in OutputAt(INITIAL, events, i) <==> FailsAt(events, s, i)
    {
      StartOf(events, s, id);
      EndsExactly(events, s, i, id);
    }
  }
}
