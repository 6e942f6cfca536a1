/** `MediatorBase` itself: its methods, with the map, the loops and the hook calls in order. */
module Mediator {
  import opened MediatorSpec

  /** A stretch of the log makes exactly the given calls, each once, and announces an outcome
      only after every request of the same transaction. */
  ghost predicate Realizes(calls: seq<Hook>, hooks: set<Hook>) {
    && |calls| == |hooks|
    && (forall h :: h in calls <==> h in hooks)
    && Announced(calls)
  }

  /** The log has grown by a stretch that realizes the given calls. */
  ghost predicate Extends(before: seq<Hook>, after: seq<Hook>, hooks: set<Hook>) {
    before <= after && Realizes(after[|before|..], hooks)
  }

  ghost predicate Announced(calls: seq<Hook>) {
    forall i, j :: 0 <= i < j < |calls| && (calls[i].OnCompleted? || calls[i].OnFailed?) ==> calls[j].id != calls[i].id
  }

  class MediatorBase {
    var activeTransactions: map<TransactionId, Transaction>
    var transactionIdGenerator: nat
    /** The hook calls made so far, oldest first. */
    var log: seq<Hook>

    ghost function View(): State
      reads this
    {
      State(activeTransactions, transactionIdGenerator)
    }

    constructor ()
      ensures View() == INITIAL && log == []
    {
      activeTransactions, transactionIdGenerator, log := map[], 1, [];
    }

    method GenerateTransactionId() returns (id: TransactionId)
      modifies this`transactionIdGenerator
      ensures id == transactionIdGenerator == old(transactionIdGenerator) + 1
    {
      transactionIdGenerator := transactionIdGenerator + 1;
      id := transactionIdGenerator;
    }

    method StartTransaction(participantIds: seq<ParticipantId>, timeout: Time, now: Time) returns (id: TransactionId)
      modifies this
      ensures var e := Start(participantIds, timeout, now);
        && View() == Next(old(View()), e)
        && Extends(old(log), log, Output(old(View()), e))
      ensures id == old(transactionIdGenerator) + 1
    {
      id := GenerateTransactionId();
      var transaction := Entry(activeTransactions, id);
      transaction := transaction.(id := id, startTime := now, timeout := timeout);
      ghost var base := transaction;
      for i := 0 to |participantIds|
        invariant transaction == base.(participants := base.participants + Enrolled(participantIds[..i]))
      {
        var p := participantIds[i];
        transaction := transaction.(participants := transaction.participants[p := Participant(p, Waiting, 0)]);
      }
      assert participantIds[..|participantIds|] == participantIds;
      activeTransactions := activeTransactions[id := transaction];
      log := log + [OnStarted(id)];
    }

    method OnParticipantReady(id: TransactionId, participant: ParticipantId, success: bool, now: Time)
      modifies this
      ensures var e := Reply(id, participant, success, now);
        && View() == Next(old(View()), e)
        && Extends(old(log), log, Output(old(View()), e))
    {
      if id !in activeTransactions {
        return;
      }
      if participant !in activeTransactions[id].participants {
        return;
      }
      ghost var before := activeTransactions;
      if success {
        var transaction := Marked(activeTransactions[id], participant, Prepared, now);
        activeTransactions := activeTransactions[id := transaction];
        if AllPrepared(transaction) {
          CommitTransaction(id);
          RemoveUpdated(before, id, transaction);
        }
      } else {
        var transaction := Marked(activeTransactions[id], participant, ParticipantFailed, now);
        activeTransactions := activeTransactions[id := transaction];
        RollbackTransaction(id);
        RemoveUpdated(before, id, transaction);
      }
    }

    method CommitTransaction(id: TransactionId)
      modifies this`activeTransactions, this`log
      ensures activeTransactions == old(activeTransactions) - {id}
      ensures Extends(old(log), log, CommitHooks(id, old(Entry(activeTransactions, id))))
    {
      ghost var before := activeTransactions;
      ghost var transaction := Entry(activeTransactions, id);
      activeTransactions := activeTransactions[id := Entry(activeTransactions, id).(state := Committing)];
      ghost var calls := SendCommits(id);
      activeTransactions := activeTransactions[id := activeTransactions[id].(state := Completed)];
      log := log + [OnCompleted(id)];
      RemoveUpdated(before, id, activeTransactions[id]);
      activeTransactions := activeTransactions - {id};
      CommitLogged(old(log), calls, id, transaction);
    }

    /** The loop of `CommitTransaction`: one request each, in some order. */
    method SendCommits(id: TransactionId) returns (ghost calls: seq<Hook>)
      requires id in activeTransactions
      modifies this`activeTransactions, this`log
      ensures id in activeTransactions
      ensures activeTransactions == old(activeTransactions)[id := activeTransactions[id]]
      ensures log == old(log) + calls
      ensures CommitCalls(calls, id, old(activeTransactions[id].participants.Keys))
    {
      calls := [];
      ghost var all := activeTransactions[id].participants.Keys;
      var todo := activeTransactions[id].participants.Keys;
      while todo != {}
        invariant todo <= all && id in activeTransactions && activeTransactions[id].participants.Keys == all
        invariant activeTransactions == old(activeTransactions)[id := activeTransactions[id]]
        invariant log == old(log) + calls
        invariant CommitCalls(calls, id, all - todo)
        decreases todo
      {
        var p :| p in todo;
        log := log + [SendCommit(id, p)];
        calls := calls + [SendCommit(id, p)];
        var participants := activeTransactions[id].participants;
        participants := participants[p := participants[p].(state := Committed)];
        activeTransactions := activeTransactions[id := activeTransactions[id].(participants := participants)];
        todo := todo - {p};
      }
    }

    method RollbackTransaction(id: TransactionId)
      modifies this`activeTransactions, this`log
      ensures activeTransactions == old(activeTransactions) - {id}
      ensures Extends(old(log), log, RollbackHooks(id, old(Entry(activeTransactions, id))))
    {
      ghost var before := activeTransactions;
      ghost var transaction := Entry(activeTransactions, id);
      activeTransactions := activeTransactions[id := Entry(activeTransactions, id).(state := RollingBack)];
      ghost var calls := SendRollbacks(id);
      activeTransactions := activeTransactions[id := activeTransactions[id].(state := Failed)];
      log := log + [OnFailed(id)];
      RemoveUpdated(before, id, activeTransactions[id]);
      activeTransactions := activeTransactions - {id};
      RollbackLogged(old(log), calls, id, transaction);
    }

    /** The loop of `RollbackTransaction`: one request to each prepared participant, in some order. */
    method SendRollbacks(id: TransactionId) returns (ghost calls: seq<Hook>)
      requires id in activeTransactions
      modifies this`log
      ensures log == old(log) + calls
      ensures RollbackCalls(calls, id, PreparedOf(activeTransactions[id]))
    {
      calls := [];
      var tx := activeTransactions[id];
      ghost var prepared := PreparedOf(tx);
      var todo := tx.participants.Keys;
      NothingCalled(id, prepared, todo);
      while todo != {}
        invariant todo <= tx.participants.Keys
        invariant log == old(log) + calls
        invariant RollbackCalls(calls, id, prepared - todo)
        decreases todo
      {
        var p :| p in todo;
        SendIfPrepared(id, tx.participants[p], p);
        CallsGrow(calls, id, prepared, todo, p);
        calls := calls + RollbackRequests(id, p, p in prepared);
        todo := todo - {p};
      }
      AllCalled(calls, id, prepared, todo);
    }

    method SendIfPrepared(id: TransactionId, participant: Participant, p: ParticipantId)
      modifies this`log
      ensures log == old(log) + RollbackRequests(id, p, participant.state == Prepared)
    {
      if participant.state == Prepared {
        log := log + [SendRollback(id, p)];
      }
    }

    method OnTimer(now: Time)
      modifies this`activeTransactions, this`log
      ensures View() == Next(old(View()), Timer(now))
      ensures Extends(old(log), log, Output(old(View()), Timer(now)))
    {
      var timedOut := TimedOut(now);
      ghost var before := activeTransactions;
      for i := 0 to |timedOut|
        invariant activeTransactions == before - Ids(timedOut[..i])
        invariant Extends(old(log), log, SweepHooks(before, Ids(timedOut[..i])))
      {
        ghost var logged, done := log, Ids(timedOut[..i]);
        TakeOne(timedOut, i);
        RollbackTransaction(timedOut[i]);
        RemoveMore(before, done, timedOut[i]);
        ExtendSweep(before, done, timedOut[i], old(log), logged, log);
      }
      assert timedOut[..|timedOut|] == timedOut;
    }

    /** The first loop of `OnTimer`: the ids of the expired transactions, each once. */
    method TimedOut(now: Time) returns (ids: seq<TransactionId>)
      ensures Ids(ids) == ExpiredIds(activeTransactions, now)
      ensures forall i, j :: 0 <= i < j < |ids| ==> ids[i] != ids[j]
    {
      ids := [];
      var todo := activeTransactions.Keys;
      while todo != {}
        invariant todo <= activeTransactions.Keys
        invariant forall id :: id in ids <==>
          id in activeTransactions.Keys - todo && IsExpired(activeTransactions[id], now)
        invariant forall i, j :: 0 <= i < j < |ids| ==> ids[i] != ids[j]
        decreases todo
      {
        var id :| id in todo;
        if IsExpired(activeTransactions[id], now) {
          ids := ids + [id];
        }
        todo := todo - {id};
      }
    }
  }

  ghost function Ids(ids: seq<TransactionId>): set<TransactionId> {
    set id | id in ids
  }

  lemma TakeOne(ids: seq<TransactionId>, i: nat)
    requires i < |ids| && forall i, j :: 0 <= i < j < |ids| ==> ids[i] != ids[j]
    ensures Ids(ids[..i + 1]) == Ids(ids[..i]) + {ids[i]} && ids[i] !in Ids(ids[..i]) && ids[i] in Ids(ids)
  {
    assert ids[..i + 1] == ids[..i] + [ids[i]];
  }

  lemma RemoveUpdated(active: map<TransactionId, Transaction>, id: TransactionId, tx: Transaction)
    ensures active[id := tx] - {id} == active - {id}
  {
  }

  lemma SweepGrows(active: map<TransactionId, Transaction>, ids: set<TransactionId>, id: TransactionId)
    requires id in active && id !in ids
    ensures SweepHooks(active, ids + {id}) == SweepHooks(active, ids) + RollbackHooks(id, active[id])
    ensures forall h :: h in SweepHooks(active, ids) ==> h.id in ids
    ensures forall h :: h in RollbackHooks(id, active[id]) ==> h.id == id
  {
  }

  lemma Joined(c1: seq<Hook>, h1: set<Hook>, c2: seq<Hook>, h2: set<Hook>)
    requires Realizes(c1, h1) && Realizes(c2, h2)
    requires forall a, b :: a in h1 && b in h2 ==> a.id != b.id
    ensures Realizes(c1 + c2, h1 + h2)
  {
    assert h1 !! h2;
    assert |h1 + h2| == |h1| + |h2|;
    forall i, j | 0 <= i < |c1| && 0 <= j < |c2|
      ensures c1[i].id != c2[j].id
    {
      assert c1[i] in h1 && c2[j] in h2;
    }
    AnnouncedConcat(c1, c2);
  }

  lemma ExtendsTwice(start: seq<Hook>, logged: seq<Hook>, h1: set<Hook>, after: seq<Hook>, h2: set<Hook>)
    requires Extends(start, logged, h1) && Extends(logged, after, h2)
    requires forall a, b :: a in h1 && b in h2 ==> a.id != b.id
    ensures Extends(start, after, h1 + h2)
  {
    Joined(logged[|start|..], h1, after[|logged|..], h2);
    assert after[|start|..] == logged[|start|..] + after[|logged|..];
  }

  lemma ExtendSweep(
      active: map<TransactionId, Transaction>, ids: set<TransactionId>, id: TransactionId,
      start: seq<Hook>, logged: seq<Hook>, after: seq<Hook>)
    requires id in active && id !in ids
    requires Extends(start, logged, SweepHooks(active, ids))
    requires Extends(logged, after, RollbackHooks(id, Entry(active - ids, id)))
    ensures Extends(start, after, SweepHooks(active, ids + {id}))
  {
    SweepGrows(active, ids, id);
    ExtendsTwice(start, logged, SweepHooks(active, ids), after, RollbackHooks(id, active[id]));
  }

  lemma RemoveMore(active: map<TransactionId, Transaction>, ids: set<TransactionId>, id: TransactionId)
    ensures active - ids - {id} == active - (ids + {id})
  {
  }

  lemma AnnouncedConcat(a: seq<Hook>, b: seq<Hook>)
    requires Announced(a) && Announced(b)
    requires forall i, j :: 0 <= i < |a| && 0 <= j < |b| ==> a[i].id != b[j].id
    ensures Announced(a + b)
  {
  }

  lemma {:induction false} CommitImage(id: TransactionId, keys: set<ParticipantId>)
    ensures |set p | p in keys :: SendCommit(id, p)| == |keys|
  {
    if keys != {} {
      var p :| p in keys;
      CommitImage(id, keys - {p});
      assert (set q | q in keys :: SendCommit(id, q))
          == (set q | q in keys - {p} :: SendCommit(id, q)) + {SendCommit(id, p)};
    }
  }

  lemma {:induction false} RollbackImage(id: TransactionId, keys: set<ParticipantId>)
    ensures |set p | p in keys :: SendRollback(id, p)| == |keys|
  {
    if keys != {} {
      var p :| p in keys;
      RollbackImage(id, keys - {p});
      assert (set q | q in keys :: SendRollback(id, q))
          == (set q | q in keys - {p} :: SendRollback(id, q)) + {SendRollback(id, p)};
    }
  }

  /** One commit request to each of the keys. */
  ghost predicate CommitCalls(calls: seq<Hook>, id: TransactionId, keys: set<ParticipantId>) {
    |calls| == |keys| && forall h :: h in calls <==> h.SendCommit? && h.id == id && h.to in keys
  }

  /** One rollback request to each of the keys. */
  ghost predicate RollbackCalls(calls: seq<Hook>, id: TransactionId, keys: set<ParticipantId>) {
    |calls| == |keys| && forall h :: h in calls <==> h.SendRollback? && h.id == id && h.to in keys
  }

  lemma AnnouncedLast(calls: seq<Hook>, last: Hook)
    requires forall h :: h in calls ==> !h.OnCompleted? && !h.OnFailed?
    ensures Announced(calls + [last])
  {
    assert forall i :: 0 <= i < |calls| ==> calls[i] in calls;
  }

  lemma RequestsThen(before: seq<Hook>, calls: seq<Hook>, requests: set<Hook>, last: Hook)
    requires |calls| == |requests| && last !in requests
    requires forall h :: h in calls <==> h in requests
    requires forall h :: h in calls ==> !h.OnCompleted? && !h.OnFailed?
    ensures Extends(before, before + calls + [last], requests + {last})
  {
    AnnouncedLast(calls, last);
    assert (before + calls + [last])[|before|..] == calls + [last];
  }

  lemma CommitLogged(before: seq<Hook>, calls: seq<Hook>, id: TransactionId, tx: Transaction)
    requires CommitCalls(calls, id, tx.participants.Keys)
    ensures Extends(before, before + calls + [OnCompleted(id)], CommitHooks(id, tx))
  {
    CommitImage(id, tx.participants.Keys);
    ghost var requests := set p | p in tx.participants.Keys :: SendCommit(id, p);
    assert forall h :: h in requests <==> h.SendCommit? && h.id == id && h.to in tx.participants.Keys;
    RequestsThen(before, calls, requests, OnCompleted(id));
  }

  lemma RollbackLogged(before: seq<Hook>, calls: seq<Hook>, id: TransactionId, tx: Transaction)
    requires RollbackCalls(calls, id, PreparedOf(tx))
    ensures Extends(before, before + calls + [OnFailed(id)], RollbackHooks(id, tx))
  {
    var prepared := PreparedOf(tx);
    RollbackImage(id, prepared);
    ghost var requests := set p | p in prepared :: SendRollback(id, p);
    assert forall h :: h in requests <==> h.SendRollback? && h.id == id && h.to in prepared;
    RequestsThen(before, calls, requests, OnFailed(id));
  }

  /** The request to one participant. */
  function RollbackRequests(id: TransactionId, p: ParticipantId, prepared: bool): seq<Hook> {
    if prepared then [SendRollback(id, p)] else []
  }

  lemma CallsGrow(calls: seq<Hook>, id: TransactionId, prepared: set<ParticipantId>, todo: set<ParticipantId>,
                  p: ParticipantId)
    requires p in todo && RollbackCalls(calls, id, prepared - todo)
    ensures RollbackCalls(calls + RollbackRequests(id, p, p in prepared), id, prepared - (todo - {p}))
  {
    assert prepared - (todo - {p}) == prepared - todo + if p in prepared then {p} else {};
  }

  lemma NothingCalled(id: TransactionId, prepared: set<ParticipantId>, todo: set<ParticipantId>)
    requires prepared <= todo
    ensures RollbackCalls([], id, prepared - todo)
  {
    assert prepared - todo == {};
  }

  lemma AllCalled(calls: seq<Hook>, id: TransactionId, prepared: set<ParticipantId>, todo: set<ParticipantId>)
    requires RollbackCalls(calls, id, prepared - todo) && todo == {}
    ensures RollbackCalls(calls, id, prepared)
  {
    assert prepared - todo == prepared;
  }
}
