/** `Actor`, with its methods run to completion one at a time: the mailbox of Mailbox.dfy in place. */
module ActorObject {
  import opened Common
  import opened Mailbox

  /** What running a handler does to its own actor. */
  datatype Effect<M> = Effect(sends: seq<Option<M>>, stops: bool)

  /** What a batch of messages does to the actor that runs it. */
  datatype Outcome<M> = Outcome(sent: seq<Option<M>>, stopped: bool)

  function RunBatch<M>(handler: M -> Effect<M>, batch: seq<Option<M>>): Outcome<M> {
    if batch == [] then Outcome([], false)
    else
      var o, last := RunBatch(handler, batch[..|batch| - 1]), batch[|batch| - 1];
      if last.None? then o
      else
        var e := handler(last.value);
        Outcome(if o.stopped then o.sent else o.sent + e.sends, o.stopped || e.stops)
  }

  // ---- What that is, message by message ----

  function SendsOf<M>(handler: M -> Effect<M>, message: Option<M>): seq<Option<M>> {
    if message.None? then [] else handler(message.value).sends
  }

  predicate StopsAt<M>(handler: M -> Effect<M>, message: Option<M>) {
    message.Some? && handler(message.value).stops
  }

  /** Message k is the first whose handler stops the actor; there is none if k is the length of the batch. */
  predicate IsFirstStop<M>(handler: M -> Effect<M>, batch: seq<Option<M>>, k: nat) {
    && k <= |batch| && (forall j :: 0 <= j < k ==> !StopsAt(handler, batch[j]))
    && (k < |batch| ==> StopsAt(handler, batch[k]))
  }

  /** What the handlers of the first n messages send to their own actor, end to end. */
  function SentByFirst<M>(handler: M -> Effect<M>, batch: seq<Option<M>>, n: nat): seq<Option<M>>
    requires n <= |batch|
  {
    Flatten(seq(n, j requires 0 <= j < n => SendsOf(handler, batch[j])))
  }

  lemma SentByOneMore<M>(handler: M -> Effect<M>, batch: seq<Option<M>>, n: nat)
    requires n < |batch|
    ensures SentByFirst(handler, batch, n + 1) == SentByFirst(handler, batch, n) + SendsOf(handler, batch[n])
  {
    var first := seq(n, j requires 0 <= j < n => SendsOf(handler, batch[j]));
    FlattenSnoc(first, SendsOf(handler, batch[n]));
    assert seq(n + 1, j requires 0 <= j < n + 1 => SendsOf(handler, batch[j])) == first + [SendsOf(handler, batch[n])];
  }

  lemma SentByPrefix<M>(handler: M -> Effect<M>, batch: seq<Option<M>>, m: nat, n: nat)
    requires n <= m <= |batch|
    ensures SentByFirst(handler, batch[..m], n) == SentByFirst(handler, batch, n)
  {
    assert seq(n, j requires 0 <= j < n => SendsOf(handler, batch[..m][j]))
        == seq(n, j requires 0 <= j < n => SendsOf(handler, batch[j]));
  }

  /** A batch sends to its own actor what the handlers up to the first that stops it send, that one included, and
      stops it if there is one. */
  lemma {:induction false} RunBatchExactly<M>(handler: M -> Effect<M>, batch: seq<Option<M>>, k: nat)
    requires IsFirstStop(handler, batch, k)
    ensures RunBatch(handler, batch)
         == Outcome(SentByFirst(handler, batch, Min(k + 1, |batch|)), k < |batch|)
    decreases |batch|
  {
    if batch != [] {
      var n := |batch| - 1;
      var init := batch[..n];
      RunBatchExactly(handler, init, Min(k, n));
      SentByPrefix(handler, batch, n, Min(k + 1, n));
      if k >= n {
        SentByOneMore(handler, batch, n);
      }
    }
  }

  lemma {:induction false} FirstStopExists<M>(handler: M -> Effect<M>, batch: seq<Option<M>>) returns (k: nat)
    ensures IsFirstStop(handler, batch, k)
  {
    k := 0;
    while k < |batch| && !StopsAt(handler, batch[k])
      invariant k <= |batch| && forall j :: 0 <= j < k ==> !StopsAt(handler, batch[j])
    {
      k := k + 1;
    }
  }

  class Actor<M> {
    var consumerQueue: seq<Option<M>>
    var storeQueue: seq<Option<M>>
    var isStop: bool
    /** The handlers called so far. */
    var executed: seq<M>
    ghost var accepted: seq<Option<M>>
    ghost var consumed: seq<Option<M>>

    ghost predicate Valid()
      reads this
    {
      && consumerQueue == []
      && accepted == consumed + storeQueue
      && executed == Functions(consumed)
    }

    constructor ()
      ensures Valid() && storeQueue == [] && !isStop && executed == []
    {
      consumerQueue, storeQueue, isStop, executed := [], [], false, [];
      accepted, consumed := [], [];
    }

    method SendMessage(message: Option<M>) returns (ok: bool)
      modifies this`storeQueue, this`accepted
      ensures ok == !isStop
      ensures storeQueue == if ok then old(storeQueue) + [message] else old(storeQueue)
      ensures accepted == if ok then old(accepted) + [message] else old(accepted)
    {
      if isStop {
        return false;
      }
      storeQueue, accepted := storeQueue + [message], accepted + [message];
      return true;
    }

    method Stop()
      modifies this`isStop
      ensures isStop
    {
      isStop := true;
    }

    /** A handler runs: it sends to its own actor and may stop it. */
    method Call(m: M, handler: M -> Effect<M>)
      modifies this`storeQueue, this`accepted, this`isStop, this`executed
      ensures executed == old(executed) + [m]
      ensures isStop == (old(isStop) || handler(m).stops)
      ensures var sent := if old(isStop) then [] else handler(m).sends;
        storeQueue == old(storeQueue) + sent && accepted == old(accepted) + sent
    {
      executed := executed + [m];
      var sends := handler(m).sends;
      for i := 0 to |sends|
        invariant isStop == old(isStop) && executed == old(executed) + [m]
        invariant var sent := if isStop then [] else sends[..i];
          storeQueue == old(storeQueue) + sent && accepted == old(accepted) + sent
      {
        var _ := SendMessage(sends[i]);
      }
      assert sends[..|sends|] == sends;
      if handler(m).stops {
        Stop();
      }
    }

    /** The front message is run, unless it is null, and popped. */
    method ProcessFront(handler: M -> Effect<M>)
      requires consumerQueue != []
      modifies this
      ensures consumerQueue == old(consumerQueue)[1..] && consumed == old(consumed) + [old(consumerQueue)[0]]
      ensures var m := old(consumerQueue)[0];
        if m.None? then
          && storeQueue == old(storeQueue) && accepted == old(accepted)
          && isStop == old(isStop) && executed == old(executed)
        else
          var sent := if old(isStop) then [] else handler(m.value).sends;
          && storeQueue == old(storeQueue) + sent && accepted == old(accepted) + sent
          && isStop == (old(isStop) || handler(m.value).stops) && executed == old(executed) + [m.value]
    {
      var message := consumerQueue[0];
      if message.Some? {
        Call(message.value, handler);
      }
      consumerQueue := consumerQueue[1..];
      consumed := consumed + [message];
    }

    /** One call handles exactly the messages stored when it began, in order, null ones skipped. What
        the handlers send to their own actor, up to the first that stops it, waits for the next call.
        A stopped actor handles nothing. */
    method ProcessMessage(handler: M -> Effect<M>)
      requires Valid()
      modifies this
      ensures Valid()
      ensures old(isStop) ==> isStop && storeQueue == old(storeQueue) && executed == old(executed)
                              && consumed == old(consumed) && accepted == old(accepted)
      ensures !old(isStop) ==>
        && executed == old(executed) + Functions(old(storeQueue))
        && consumed == old(consumed) + old(storeQueue)
        && accepted == old(accepted) + storeQueue
        && exists k: nat :: IsFirstStop(handler, old(storeQueue), k)
             && storeQueue == SentByFirst(handler, old(storeQueue), Min(k + 1, |old(storeQueue)|))
             && isStop == (k < |old(storeQueue)|)
    {
      if isStop {
        return;
      }
      ghost var batch := storeQueue;
      ProcessStored(handler);
      ghost var k := FirstStopExists(handler, batch);
      RunBatchExactly(handler, batch, k);
    }

    /** The swap and the loop of `ProcessMessage`. */
    method ProcessStored(handler: M -> Effect<M>)
      requires Valid() && !isStop
      modifies this
      ensures Valid()
      ensures
        var o := RunBatch(handler, old(storeQueue));
        && executed == old(executed) + Functions(old(storeQueue))
        && consumed == old(consumed) + old(storeQueue)
        && storeQueue == o.sent && isStop == o.stopped && accepted == old(accepted) + o.sent
    {
      ghost var batch, done := storeQueue, 0;
      consumerQueue, storeQueue := storeQueue, consumerQueue;
      while consumerQueue != []
        invariant 0 <= done <= |batch| && consumerQueue == batch[done..]
        invariant storeQueue == RunBatch(handler, batch[..done]).sent
        invariant isStop == RunBatch(handler, batch[..done]).stopped
        invariant accepted == old(accepted) + RunBatch(handler, batch[..done]).sent
        invariant consumed == old(consumed) + batch[..done]
        invariant executed == old(executed) + Functions(batch[..done])
        decreases |consumerQueue|
      {
        assert batch[..done + 1][..done] == batch[..done];
        ProcessFront(handler);
        done := done + 1;
      }
      assert batch[..done] == batch;
      FunctionsConcat(old(consumed), batch);
    }
  }
}
