/** An actor's mailbox: any number of senders push under the lock while one logic thread swaps
    the two queues and drains the one it took. A message is a function; None is a null one. */
module Mailbox {
  import opened Common

  /** A sender that has passed the `isStop` check holds the message it is about to push. */
  datatype SenderPc<M> = Out | Passed(message: Option<M>)

  /** Where the logic thread stands in `ProcessMessage`. */
  datatype ActorPc = Resting | Entered | Draining | Running

  datatype Box<M> = Box(
    storeQueue: seq<Option<M>>,
    consumerQueue: seq<Option<M>>,
    stopped: bool,
    senders: seq<SenderPc<M>>,
    pc: ActorPc,
    // history
    accepted: seq<Option<M>>,
    consumed: seq<Option<M>>,
    batch: seq<Option<M>>,
    before: seq<Option<M>>,
    swapsAfterStop: nat)

  datatype Action<M> =
    | Check(i: nat, message: Option<M>)
    | Push(i: nat)
    | Stop
    | Enter
    | Swap
    | Look
    | Finish

  ghost predicate Init<M>(b: Box<M>) {
    && b.storeQueue == [] && b.consumerQueue == [] && !b.stopped && b.pc == Resting
    && b.accepted == [] && b.consumed == [] && b.batch == [] && b.before == [] && b.swapsAfterStop == 0
    && forall i :: 0 <= i < |b.senders| ==> b.senders[i] == Out
  }

  predicate Enabled<M(==)>(b: Box<M>, a: Action<M>) {
    match a
    case Check(i, _) => i < |b.senders| && b.senders[i].Out?
    case Push(i) => i < |b.senders| && b.senders[i].Passed?
    case Stop => true
    case Enter => b.pc == Resting
    case Swap => b.pc == Entered
    case Look => b.pc == Draining
    case Finish => b.pc == Running && b.consumerQueue != []
  }

  function Next<M(==)>(b: Box<M>, a: Action<M>): Box<M>
    requires Enabled(b, a)
  {
    match a
    case Check(i, m) => if b.stopped then b else b.(senders := b.senders[i := Passed(m)])
    case Push(i) =>
      var m := b.senders[i].message;
      b.(storeQueue := b.storeQueue + [m], senders := b.senders[i := Out], accepted := b.accepted + [m])
    case Stop => b.(stopped := true)
    case Enter => if b.stopped then b else b.(pc := Entered)
    case Swap =>
      b.(consumerQueue := b.storeQueue, storeQueue := b.consumerQueue, pc := Draining,
         before := b.consumed, batch := b.storeQueue,
         swapsAfterStop := if b.stopped then b.swapsAfterStop + 1 else b.swapsAfterStop)
    case Look =>
      if b.consumerQueue == [] then b.(pc := Resting)
      else if b.consumerQueue[0].None? then
        b.(consumerQueue := b.consumerQueue[1..], consumed := b.consumed + [None])
      else b.(pc := Running)
    case Finish =>
      b.(consumerQueue := b.consumerQueue[1..], consumed := b.consumed + [b.consumerQueue[0]], pc := Draining)
  }

  /** The functions among the messages. */
  function Functions<M>(messages: seq<Option<M>>): seq<M> {
    if messages == [] then []
    else
      var last := messages[|messages| - 1];
      Functions(messages[..|messages| - 1]) + if last.Some? then [last.value] else []
  }

  /** The handlers called so far, the one being run included. */
  function Executed<M>(b: Box<M>): seq<M> {
    Functions(b.consumed)
    + if b.pc == Running && b.consumerQueue != [] && b.consumerQueue[0].Some? then [b.consumerQueue[0].value] else []
  }

  ghost predicate BoxInv<M>(b: Box<M>) {
    && b.accepted == b.consumed + b.consumerQueue + b.storeQueue
    && (b.pc == Resting || b.pc == Entered ==> b.consumerQueue == [])
    && (b.pc == Running ==> b.consumerQueue != [] && b.consumerQueue[0].Some?)
    && b.before + b.batch == b.consumed + b.consumerQueue
    && (b.pc != Resting && b.pc != Entered ==> b.before <= b.consumed)
    && b.swapsAfterStop + (if b.stopped && b.pc == Entered then 1 else 0) <= 1
    && (b.swapsAfterStop > 0 ==> b.stopped)
  }

  /** Accepted messages, in the order they were pushed, are at all times the consumed ones, then the
      ones taken, then the ones stored: two queues that are one queue. And after a stop at most one
      more batch is taken. */
  lemma BoxStep<M>(b: Box<M>, a: Action<M>)
    requires BoxInv(b) && Enabled(b, a)
    ensures BoxInv(Next(b, a))
  {
    if b.consumerQueue != [] && (a == Finish || (a == Look && b.consumerQueue[0].None?)) {
      TakeFront(b, Next(b, a));
    }
  }

  /** Consuming the front message moves it from one part to the next. */
  lemma TakeFront<M>(b: Box<M>, b': Box<M>)
    requires BoxInv(b) && b.consumerQueue != [] && (b.pc == Draining || b.pc == Running)
    requires b'.consumerQueue == b.consumerQueue[1..] && b'.consumed == b.consumed + [b.consumerQueue[0]]
    requires b'.storeQueue == b.storeQueue && b'.accepted == b.accepted
    requires b'.batch == b.batch && b'.before == b.before
    ensures b'.accepted == b'.consumed + b'.consumerQueue + b'.storeQueue
    ensures b'.before + b'.batch == b'.consumed + b'.consumerQueue && b'.before <= b'.consumed
  {
    assert b.consumerQueue == [b.consumerQueue[0]] + b.consumerQueue[1..];
  }

  /** A run: the mailboxes passed through, each one step after the one before it. */
  ghost predicate Behavior<M>(run: seq<Box<M>>, actions: seq<Action<M>>) {
    && |run| == |actions| + 1 && Init(run[0])
    && forall k :: 0 <= k < |actions| ==> StepAt(run, actions, k)
  }

  ghost predicate StepAt<M>(run: seq<Box<M>>, actions: seq<Action<M>>, k: nat)
    requires k < |actions| && |run| == |actions| + 1
  {
    Enabled(run[k], actions[k]) && run[k + 1] == Next(run[k], actions[k])
  }

  lemma {:induction false} OneQueue<M>(run: seq<Box<M>>, actions: seq<Action<M>>, k: nat)
    requires Behavior(run, actions) && k < |run|
    ensures BoxInv(run[k])
    ensures run[k].accepted == run[k].consumed + run[k].consumerQueue + run[k].storeQueue
    ensures run[k].swapsAfterStop <= 1
  {
    if k > 0 {
      OneQueue(run, actions, k - 1);
      assert StepAt(run, actions, k - 1);
      BoxStep(run[k - 1], actions[k - 1]);
    }
  }

  // ---- One call of ProcessMessage ----

  /** How many steps the call still takes. */
  function StepsLeft<M>(b: Box<M>): nat {
    match b.pc
    case Draining => 2 * |b.consumerQueue| + 1
    case Running => 2 * |b.consumerQueue|
    case _ => 0
  }

  predicate InDrain<M>(b: Box<M>) {
    b.pc == Draining || b.pc == Running
  }

  lemma DrainStep<M>(b: Box<M>, a: Action<M>)
    requires BoxInv(b) && Enabled(b, a) && InDrain(b)
    ensures if a == Look || a == Finish then StepsLeft(Next(b, a)) < StepsLeft(b)
            else StepsLeft(Next(b, a)) == StepsLeft(b) && Next(b, a).pc == b.pc
    ensures Next(b, a).before == b.before && Next(b, a).batch == b.batch
    ensures !InDrain(Next(b, a)) ==> Next(b, a).consumed == b.before + b.batch && Next(b, a).consumerQueue == []
  {
  }

  /** How many of the actions from i up to k are the logic thread's inside the drain loop. */
  function OwnSteps<M(==)>(actions: seq<Action<M>>, i: nat, k: nat): nat
    requires i <= k <= |actions|
  {
    if i == k then 0
    else OwnSteps(actions, i, k - 1) + if actions[k - 1] == Look || actions[k - 1] == Finish then 1 else 0
  }

  /** A call that has swapped is inside the drain loop for at most two steps a message and one more,
      however many messages are sent meanwhile, by its own handlers or by others: the call ends. */
  lemma {:induction false} DrainEnds<M>(run: seq<Box<M>>, actions: seq<Action<M>>, i: nat, k: nat)
    requires Behavior(run, actions) && i < k < |run| && actions[i] == Swap
    requires forall j :: i < j < k ==> InDrain(run[j])
    ensures OwnSteps(actions, i + 1, k) + StepsLeft(run[k]) <= 2 * |run[i].storeQueue| + 1
    ensures InDrain(run[k]) ==> run[k].before == run[i].consumed && run[k].batch == run[i].storeQueue
    decreases k
  {
    OneQueue(run, actions, k - 1);
    assert StepAt(run, actions, k - 1);
    if i + 1 < k {
      DrainEnds(run, actions, i, k - 1);
      DrainStep(run[k - 1], actions[k - 1]);
    }
  }

  /** When the call returns it has consumed exactly what was stored when it swapped, in order. */
  lemma ReturnsAfterBatch<M>(run: seq<Box<M>>, actions: seq<Action<M>>, i: nat, k: nat)
    requires Behavior(run, actions) && i < k < |run| && actions[i] == Swap
    requires (forall j :: i < j < k ==> InDrain(run[j])) && !InDrain(run[k])
    ensures run[k].consumed == run[i].consumed + run[i].storeQueue
    ensures run[k].consumerQueue == []
  {
    OneQueue(run, actions, k - 1);
    assert StepAt(run, actions, k - 1);
    if i + 1 < k {
      DrainEnds(run, actions, i, k - 1);
      DrainStep(run[k - 1], actions[k - 1]);
    }
  }

  // ---- What is executed ----

  lemma {:induction false} FunctionsConcat<M>(a: seq<Option<M>>, b: seq<Option<M>>)
    ensures Functions(a + b) == Functions(a) + Functions(b)
  {
    if b == [] {
      assert a + b == a && Functions(a) + [] == Functions(a);
    } else {
      var init := b[..|b| - 1];
      FunctionsConcat(a, init);
      assert (a + b)[..|a + b| - 1] == a + init;
    }
  }

  lemma FunctionsOfOne<M>(m: M)
    ensures Functions([Some(m)]) == [m]
  {
    assert [Some(m)][..0] == [];
  }

  lemma FunctionsPrefix<M>(a: seq<Option<M>>, b: seq<Option<M>>)
    ensures Functions(a) <= Functions(a + b)
  {
    FunctionsConcat(a, b);
  }

  /** The messages whose turn has come: the consumed ones and the one being run. */
  function Begun<M>(b: Box<M>): seq<Option<M>> {
    b.consumed + if b.pc == Running && b.consumerQueue != [] then [b.consumerQueue[0]] else []
  }

  lemma ExecutedAreBegun<M>(b: Box<M>)
    requires BoxInv(b)
    ensures Executed(b) == Functions(Begun(b))
  {
    if b.pc == Running {
      FunctionsConcat(b.consumed, [b.consumerQueue[0]]);
      FunctionsOfOne(b.consumerQueue[0].value);
    } else {
      assert Begun(b) == b.consumed;
    }
  }

  lemma BegunPrefix<M>(b: Box<M>) returns (rest: seq<Option<M>>)
    requires BoxInv(b)
    ensures b.accepted == Begun(b) + rest
  {
    if b.pc == Running {
      rest := b.consumerQueue[1..] + b.storeQueue;
      assert b.consumerQueue == [b.consumerQueue[0]] + b.consumerQueue[1..];
    } else {
      rest := b.consumerQueue + b.storeQueue;
    }
  }

  /** The handlers executed are a prefix of the functions accepted. */
  lemma ExecutedPrefix<M>(b: Box<M>)
    requires BoxInv(b)
    ensures Executed(b) <= Functions(b.accepted)
  {
    ExecutedAreBegun(b);
    var rest := BegunPrefix(b);
    FunctionsPrefix(Begun(b), rest);
  }

  // ---- Told from the steps alone ----

  ghost predicate StoppedBefore<M>(actions: seq<Action<M>>, k: nat)
    requires k <= |actions|
  {
    exists j: nat :: j < k && actions[j] == Stop
  }

  lemma StoppedNext<M>(actions: seq<Action<M>>, k: nat)
    requires k < |actions|
    ensures StoppedBefore(actions, k + 1) <==> StoppedBefore(actions, k) || actions[k] == Stop
  {
  }

  lemma {:induction false} StopSeen<M>(run: seq<Box<M>>, actions: seq<Action<M>>, k: nat)
    requires Behavior(run, actions) && k < |run|
    ensures run[k].stopped <==> StoppedBefore(actions, k)
  {
    if k > 0 {
      StopSeen(run, actions, k - 1);
      assert StepAt(run, actions, k - 1);
      StoppedNext(actions, k - 1);
    }
  }

  lemma {:induction false} SendersKept<M>(run: seq<Box<M>>, actions: seq<Action<M>>, k: nat)
    requires Behavior(run, actions) && k < |run|
    ensures |run[k].senders| == |run[0].senders|
  {
    if k > 0 {
      SendersKept(run, actions, k - 1);
      assert StepAt(run, actions, k - 1);
    }
  }

  /** Sender i's last step before k is a check, of this message, that no stop preceded. */
  ghost predicate Sends<M>(actions: seq<Action<M>>, k: nat, i: nat, message: Option<M>)
    requires k <= |actions|
  {
    exists j: nat :: ChecksAt(actions, j, i, message) && j < k && !StoppedBefore(actions, j)
      && !SenderActs(actions, j + 1, k, i)
  }

  ghost predicate ChecksAt<M>(actions: seq<Action<M>>, j: nat, i: nat, message: Option<M>) {
    j < |actions| && actions[j] == Check(i, message)
  }

  ghost predicate SenderActs<M>(actions: seq<Action<M>>, from: nat, to: nat, i: nat)
    requires to <= |actions|
  {
    exists j: nat :: from <= j < to && (actions[j] == Push(i) || (actions[j].Check? && actions[j].i == i))
  }

  /** A sender is about to push exactly the message it last checked, and only if no stop came before the check. */
  lemma {:induction false} PassedExactly<M>(
      run: seq<Box<M>>, actions: seq<Action<M>>, k: nat, i: nat, message: Option<M>)
    requires Behavior(run, actions) && k < |run| && i < |run[0].senders|
    ensures i < |run[k].senders|
    ensures run[k].senders[i] == Passed(message) <==> Sends(actions, k, i, message)
  {
    SendersKept(run, actions, k);
    if k > 0 {
      PassedExactly(run, actions, k - 1, i, message);
      assert StepAt(run, actions, k - 1);
      SendersKept(run, actions, k - 1);
      StopSeen(run, actions, k - 1);
      SendsNext(run, actions, k - 1, i, message);
    }
  }

  lemma SendsNext<M>(run: seq<Box<M>>, actions: seq<Action<M>>, k: nat, i: nat, message: Option<M>)
    requires |run| == |actions| + 1 && k < |actions| && i < |run[k].senders| == |run[k + 1].senders|
    requires StepAt(run, actions, k)
    requires run[k].stopped <==> StoppedBefore(actions, k)
    requires run[k].senders[i] == Passed(message) <==> Sends(actions, k, i, message)
    ensures run[k + 1].senders[i] == Passed(message) <==> Sends(actions, k + 1, i, message)
  {
  }

  function Pushes<M>(actions: seq<Action<M>>, k: nat): nat
    requires k <= |actions|
  {
    if k == 0 then 0 else Pushes(actions, k - 1) + if actions[k - 1].Push? then 1 else 0
  }

  /** The accepted messages are those of the pushes, one each in their order. */
  ghost predicate HoldsPush<M>(actions: seq<Action<M>>, accepted: seq<Option<M>>, j: nat)
    requires j < |actions|
  {
    actions[j].Push? ==>
      Pushes(actions, j) < |accepted| && Sends(actions, j, actions[j].i, accepted[Pushes(actions, j)])
  }

  lemma {:induction false} AcceptedExactly<M>(run: seq<Box<M>>, actions: seq<Action<M>>, k: nat)
    requires Behavior(run, actions) && k < |run|
    ensures |run[k].accepted| == Pushes(actions, k)
    ensures forall j: nat :: j < k ==> HoldsPush(actions, run[k].accepted, j)
  {
    if k > 0 {
      AcceptedExactly(run, actions, k - 1);
      assert StepAt(run, actions, k - 1);
      if actions[k - 1].Push? {
        var i := actions[k - 1].i;
        SendersKept(run, actions, k - 1);
        PassedExactly(run, actions, k - 1, i, run[k - 1].senders[i].message);
      }
      forall j: nat | j < k
        ensures HoldsPush(actions, run[k].accepted, j)
      {
        assert j < k - 1 ==> HoldsPush(actions, run[k - 1].accepted, j);
      }
    }
  }

  /** The handlers whose run began in the first k steps: the logic thread came to a function at the front. */
  function Ran<M>(boxes: seq<Box<M>>, k: nat): seq<M>
    requires k < |boxes|
  {
    if k == 0 then [] else Ran(boxes, k - 1) + Began(boxes[k - 1], boxes[k])
  }

  function Began<M>(b: Box<M>, b': Box<M>): seq<M> {
    if b.pc != Running && b'.pc == Running && b.consumerQueue != [] && b.consumerQueue[0].Some?
    then [b.consumerQueue[0].value] else []
  }

  lemma BeganStep<M>(b: Box<M>, a: Action<M>)
    requires BoxInv(b) && Enabled(b, a)
    ensures Executed(Next(b, a)) == Executed(b) + Began(b, Next(b, a))
  {
    if b.consumerQueue != [] && (a == Finish || (a == Look && b.consumerQueue[0].None?)) {
      FunctionsConcat(b.consumed, [b.consumerQueue[0]]);
      assert [b.consumerQueue[0]][..0] == [];
    }
  }

  ghost predicate Follows<M>(boxes: seq<Box<M>>, j: nat)
    requires j + 1 < |boxes|
  {
    Executed(boxes[j + 1]) == Executed(boxes[j]) + Began(boxes[j], boxes[j + 1])
  }

  lemma {:induction false} RanFollows<M>(boxes: seq<Box<M>>, k: nat)
    requires k < |boxes| && Executed(boxes[0]) == []
    requires forall j: nat :: j < k ==> Follows(boxes, j)
    ensures Executed(boxes[k]) == Ran(boxes, k)
  {
    if k > 0 {
      RanFollows(boxes, k - 1);
      assert Follows(boxes, k - 1);
    }
  }

  /** Counting a function as executed means that its handler was run. */
  lemma ExecutedWereRun<M>(run: seq<Box<M>>, actions: seq<Action<M>>, k: nat)
    requires Behavior(run, actions) && k < |run|
    ensures Executed(run[k]) == Ran(run, k)
  {
    forall j: nat | j < k
      ensures Follows(run, j)
    {
      OneQueue(run, actions, j);
      assert StepAt(run, actions, j);
      BeganStep(run[j], actions[j]);
    }
    RanFollows(run, k);
  }

  ghost predicate LateSwap<M>(actions: seq<Action<M>>, j: nat) {
    j < |actions| && actions[j] == Swap && StoppedBefore(actions, j)
  }

  lemma {:induction false} LateSwapCounted<M>(run: seq<Box<M>>, actions: seq<Action<M>>, j: nat, k: nat)
    requires Behavior(run, actions) && j < k < |run| && LateSwap(actions, j)
    ensures run[k].swapsAfterStop >= 1
    decreases k
  {
    assert StepAt(run, actions, k - 1);
    if j == k - 1 {
      StopSeen(run, actions, j);
    } else {
      LateSwapCounted(run, actions, j, k - 1);
    }
  }

  /** A call enters exactly if no stop came before it, and of all the swaps after the first stop there is one
      at most: the one of a call that had entered already. */
  lemma {:induction false} StopIsFinal<M>(run: seq<Box<M>>, actions: seq<Action<M>>, j: nat, k: nat)
    requires Behavior(run, actions) && j <= k < |actions|
    ensures LateSwap(actions, j) && LateSwap(actions, k) ==> j == k
    ensures actions[k] == Enter ==> (run[k + 1].pc == Entered <==> !StoppedBefore(actions, k))
  {
    StopSeen(run, actions, k);
    assert StepAt(run, actions, k);
    OneQueue(run, actions, k);
    OneQueue(run, actions, k + 1);
    if j < k && LateSwap(actions, j) && LateSwap(actions, k) {
      LateSwapCounted(run, actions, j, k);
    }
  }
}
