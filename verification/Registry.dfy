/** The session registry: sharded maps, release queues and the user count, with the accept thread,
    the release threads and whoever releases sessions interleaved. Each locked section is one step.
    The server is taken before its shutdown. */
module Registry {
  import opened Common

  type SessionId = nat

  /** `ReleaseSessionKey`. */
  datatype Key = Key(sessionId: SessionId, threadId: nat)

  /** Where a release thread stands in its loop over the queue. */
  datatype ReleasePc = Waiting | Front | Found(id: SessionId) | Erased(id: SessionId) | Popping

  datatype State = State(
    sessionMap: seq<set<SessionId>>,
    numOfUser: int,
    queues: seq<seq<Key>>,
    release: seq<ReleasePc>,
    idGenerator: nat,
    /** Sessions created and not yet inserted. */
    pending: set<SessionId>,
    // history
    erased: seq<SessionId>,
    disconnected: seq<SessionId>,
    requested: set<SessionId>)

  datatype Action =
    | Create
    | Insert(id: SessionId)
    | Release(id: SessionId)
    | Wake(t: nat)
    | Look(t: nat)
    | Erase(t: nat)
    | Disconnect(t: nat)
    | Pop(t: nat)

  /** `GetTargetThreadId`. */
  function TargetThread(id: SessionId, n: nat): nat
    requires n > 0
  {
    id % n
  }

  /** The first n ids have a shard each, and from there the shards repeat. */
  lemma {:induction false} ShardsRepeat(id: SessionId, n: nat)
    requires n > 0
    ensures id < n ==> TargetThread(id, n) == id
    ensures TargetThread(id + n, n) == TargetThread(id, n) < n
  {
    var q := id / n;
    OneRemainder(0, id, n);
    OneRemainder(q, id % n, n);
    assert (q + 1) * n == q * n + n;
    OneRemainder(q + 1, id % n, n);
  }

  lemma OneRemainder(q: nat, r: nat, n: nat)
    requires n > 0
    ensures r < n ==> (q * n + r) % n == r
  {
    var x := q * n + r;
    if r < n && x / n != q {
      Apart(x / n, q, n);
    }
  }

  lemma Apart(a: int, b: int, n: nat)
    requires a != b
    ensures a * n - b * n >= n || b * n - a * n >= n
  {
    if a > b {
      assert (a - b - 1) * n >= 0;
    } else {
      assert (b - a - 1) * n >= 0;
    }
  }

  /** So n consecutive sessions are in n different shards. */
  lemma {:induction false} ShardsSpread(a: SessionId, b: SessionId, n: nat)
    requires n > 0 && a < b < a + n
    ensures TargetThread(a, n) != TargetThread(b, n)
    decreases a
  {
    if a >= n {
      ShardsRepeat(a - n, n);
      ShardsRepeat(b - n, n);
      ShardsSpread(a - n, b - n, n);
    } else if b >= n {
      ShardsRepeat(a, n);
      ShardsRepeat(b - n, n);
    } else {
      ShardsRepeat(a, n);
      ShardsRepeat(b, n);
    }
  }

  function Size(s: set<SessionId>): nat { |s| }

  ghost predicate Init(s: State) {
    && |s.sessionMap| > 0 && |s.queues| == |s.sessionMap| && |s.release| == |s.sessionMap|
    && (forall t :: 0 <= t < |s.sessionMap| ==> s.sessionMap[t] == {} && s.queues[t] == [] && s.release[t] == Waiting)
    && s.numOfUser == 0 && s.idGenerator == 0 && s.pending == {}
    && s.erased == [] && s.disconnected == [] && s.requested == {}
  }

  ghost predicate Sized(s: State) {
    |s.sessionMap| > 0 && |s.queues| == |s.sessionMap| && |s.release| == |s.sessionMap|
  }

  ghost predicate Enabled(s: State, a: Action)
    requires Sized(s)
  {
    var n := |s.sessionMap|;
    match a
    case Create => true
    case Insert(id) => id in s.pending
    // the queue's mutex is held by its release thread from wake-up until the queue is empty
    case Release(id) => 0 < id <= s.idGenerator && s.release[TargetThread(id, n)] == Waiting
    case Wake(t) => t < n && s.release[t] == Waiting
    case Look(t) => t < n && s.release[t] == Front
                    && (s.queues[t] != [] ==> s.queues[t][0].threadId < n)
    case Erase(t) => t < n && s.release[t].Found? && s.queues[t] != [] && s.queues[t][0].threadId < n
    case Disconnect(t) => t < n && s.release[t].Erased?
    case Pop(t) => t < n && s.release[t] == Popping && s.queues[t] != []
  }

  ghost function Next(s: State, a: Action): State
    requires Sized(s) && Enabled(s, a)
  {
    var n := |s.sessionMap|;
    match a
    case Create => s.(idGenerator := s.idGenerator + 1, pending := s.pending + {s.idGenerator + 1})
    case Insert(id) =>
      var t := TargetThread(id, n);
      s.(sessionMap := s.sessionMap[t := s.sessionMap[t] + {id}], numOfUser := s.numOfUser + 1,
         pending := s.pending - {id})
    case Release(id) =>
      var t := TargetThread(id, n);
      s.(queues := s.queues[t := s.queues[t] + [Key(id, t)]],
         requested := if id in s.sessionMap[t] then s.requested + {id} else s.requested)
    case Wake(t) => s.(release := s.release[t := Front])
    case Look(t) =>
      if s.queues[t] == [] then s.(release := s.release[t := Waiting])
      else
        var key := s.queues[t][0];
        var found := key.sessionId in s.sessionMap[key.threadId];
        s.(release := s.release[t := if found then Found(key.sessionId) else Popping])
    case Erase(t) =>
      var key := s.queues[t][0];
      s.(sessionMap := s.sessionMap[key.threadId := s.sessionMap[key.threadId] - {key.sessionId}],
         numOfUser := s.numOfUser - 1, erased := s.erased + [key.sessionId],
         release := s.release[t := Erased(s.release[t].id)])
    case Disconnect(t) =>
      s.(disconnected := s.disconnected + [s.release[t].id], release := s.release[t := Popping])
    case Pop(t) => s.(queues := s.queues[t := s.queues[t][1..]], release := s.release[t := Front])
  }

  // ---- The invariant ----

  /** Every session and every key is in the shard of its id. */
  ghost predicate PlacementInv(s: State)
    requires Sized(s)
  {
    var n := |s.sessionMap|;
    && (forall t, id :: 0 <= t < n && id in s.sessionMap[t] ==> TargetThread(id, n) == t)
    && (forall t, i :: 0 <= t < n && 0 <= i < |s.queues[t]| ==>
          s.queues[t][i].threadId == t && TargetThread(s.queues[t][i].sessionId, n) == t)
  }

  ghost predicate CountInv(s: State) {
    s.numOfUser == Total(s.sessionMap, Size)
  }

  ghost predicate Distinct(ids: seq<SessionId>) {
    forall i, j :: 0 <= i < j < |ids| ==> ids[i] != ids[j]
  }

  ghost predicate LiveAt(s: State, id: SessionId) {
    0 < id <= s.idGenerator && id !in s.pending && id !in s.erased
  }

  ghost predicate GoneAt(s: State, id: SessionId) {
    0 < id <= s.idGenerator && id !in s.pending
  }

  /** A session is pending, then in a map, then erased, and never goes back. */
  ghost predicate LifeInv(s: State)
    requires Sized(s)
  {
    && (forall id :: id in s.pending ==> 0 < id <= s.idGenerator)
    && (forall t, id :: 0 <= t < |s.sessionMap| && id in s.sessionMap[t] ==> LiveAt(s, id))
    && (forall id :: id in s.erased ==> GoneAt(s, id))
    && Distinct(s.erased)
  }

  /** What release thread t has found is still there; what it has erased is not yet disconnected. */
  ghost predicate ReleaseAt(s: State, t: nat)
    requires Sized(s) && t < |s.release|
  {
    match s.release[t]
    case Found(id) => s.queues[t] != [] && s.queues[t][0] == Key(id, t) && id in s.sessionMap[t]
    case Erased(id) => s.queues[t] != [] && s.queues[t][0] == Key(id, t) && id in s.erased && id !in s.disconnected
    case Popping => s.queues[t] != []
    case _ => true
  }

  /** An erased session has been disconnected, or its release thread is about to. */
  ghost predicate ErasedAt(s: State, id: SessionId)
    requires Sized(s)
  {
    id in s.disconnected || s.release[TargetThread(id, |s.sessionMap|)] == Erased(id)
  }

  ghost predicate ReleaseInv(s: State)
    requires Sized(s)
  {
    && (forall t :: 0 <= t < |s.release| ==> ReleaseAt(s, t))
    && Distinct(s.disconnected)
    && (forall id :: id in s.disconnected ==> id in s.erased)
    && (forall id :: id in s.erased ==> ErasedAt(s, id))
  }

  /** The keys of shard t still to be looked at. */
  ghost function Ahead(s: State, t: nat): seq<Key>
    requires Sized(s) && t < |s.release|
  {
    if s.release[t] == Popping && s.queues[t] != [] then s.queues[t][1..] else s.queues[t]
  }

  /** A registered session whose release was requested is erased, or its key is still ahead. */
  ghost predicate RequestAt(s: State, id: SessionId)
    requires Sized(s)
  {
    var t := TargetThread(id, |s.sessionMap|);
    id in s.erased || Key(id, t) in Ahead(s, t)
  }

  ghost predicate RequestInv(s: State)
    requires Sized(s)
  {
    forall id :: id in s.requested ==> RequestAt(s, id) && StillThere(s, id)
  }

  /** A registered session keeps its place until its own release thread erases it. */
  ghost predicate StillThere(s: State, id: SessionId)
    requires Sized(s)
  {
    id in s.erased || id in s.sessionMap[TargetThread(id, |s.sessionMap|)]
  }

  ghost predicate Inv(s: State) {
    Sized(s) && PlacementInv(s) && CountInv(s) && LifeInv(s) && ReleaseInv(s) && RequestInv(s)
  }

  // ---- One step ----

  lemma CountStep(s: State, a: Action)
    requires Inv(s) && Enabled(s, a)
    ensures CountInv(Next(s, a))
  {
    match a
    case Insert(id) =>
      var t := TargetThread(id, |s.sessionMap|);
      assert id in s.sessionMap[t] ==> LiveAt(s, id);
      TotalUpdate(s.sessionMap, Size, t, s.sessionMap[t] + {id});
    case Erase(t) =>
      assert ReleaseAt(s, t);
      TotalUpdate(s.sessionMap, Size, t, s.sessionMap[t] - {s.queues[t][0].sessionId});
    case _ =>
  }

  lemma PlacementStep(s: State, a: Action)
    requires Inv(s) && Enabled(s, a)
    ensures Sized(Next(s, a)) && PlacementInv(Next(s, a))
  {
  }

  lemma EraseLife(s: State, t: nat)
    requires Inv(s) && Enabled(s, Erase(t))
    ensures LifeInv(Next(s, Erase(t)))
  {
    assert ReleaseAt(s, t);
    var s', x := Next(s, Erase(t)), s.release[t].id;
    assert x in s.sessionMap[t] && s'.erased == s.erased + [x];
    forall u, id | 0 <= u < |s'.sessionMap| && id in s'.sessionMap[u]
      ensures LiveAt(s', id)
    {
      assert id in s.sessionMap[u] && LiveAt(s, id);
    }
    forall id | id in s'.erased
      ensures GoneAt(s', id)
    {
      assert id == x ==> LiveAt(s, x);
      assert id != x ==> GoneAt(s, id);
    }
  }

  lemma InsertLife(s: State, id: SessionId)
    requires Inv(s) && Enabled(s, Insert(id))
    ensures LifeInv(Next(s, Insert(id)))
  {
    var s' := Next(s, Insert(id));
    forall u, i | 0 <= u < |s'.sessionMap| && i in s'.sessionMap[u]
      ensures LiveAt(s', i)
    {
      if i != id {
        assert i in s.sessionMap[u] && LiveAt(s, i);
      } else {
        assert id in s.erased ==> GoneAt(s, id);
      }
    }
    forall i | i in s'.erased
      ensures GoneAt(s', i)
    {
      assert GoneAt(s, i);
    }
  }

  lemma OtherLife(s: State, a: Action)
    requires Inv(s) && Enabled(s, a) && !a.Insert? && !a.Erase?
    ensures LifeInv(Next(s, a))
  {
    var s' := Next(s, a);
    forall u, i | 0 <= u < |s'.sessionMap| && i in s'.sessionMap[u]
      ensures LiveAt(s', i)
    {
      assert i in s.sessionMap[u] && LiveAt(s, i);
    }
    forall i | i in s'.erased
      ensures GoneAt(s', i)
    {
      assert GoneAt(s, i);
    }
  }

  lemma LifeStep(s: State, a: Action)
    requires Inv(s) && Enabled(s, a)
    ensures Sized(Next(s, a)) && LifeInv(Next(s, a))
  {
    match a
    case Erase(t) => EraseLife(s, t);
    case Insert(id) => InsertLife(s, id);
    case _ => OtherLife(s, a);
  }

  /** Steps of other threads keep what a release thread knows. */
  lemma InsertRelease(s: State, a: Action)
    requires Inv(s) && Enabled(s, a) && (a.Create? || a.Insert? || a.Release?)
    ensures ReleaseInv(Next(s, a))
  {
    var s' := Next(s, a);
    forall t | 0 <= t < |s.release|
      ensures ReleaseAt(s', t)
    {
      assert ReleaseAt(s, t);
    }
    forall id | id in s'.erased
      ensures ErasedAt(s', id)
    {
      assert ErasedAt(s, id);
    }
  }

  lemma LoopRelease(s: State, a: Action, t: nat)
    requires Inv(s) && Enabled(s, a) && (a == Wake(t) || a == Look(t) || a == Pop(t))
    ensures ReleaseInv(Next(s, a))
  {
    var s' := Next(s, a);
    assert ReleaseAt(s, t);
    forall u | 0 <= u < |s.release|
      ensures ReleaseAt(s', u)
    {
      assert ReleaseAt(s, u);
    }
    forall id | id in s'.erased
      ensures ErasedAt(s', id)
    {
      assert ErasedAt(s, id);
    }
  }

  lemma EraseRelease(s: State, t: nat)
    requires Inv(s) && Enabled(s, Erase(t))
    ensures ReleaseInv(Next(s, Erase(t)))
  {
    var s', x := Next(s, Erase(t)), s.release[t].id;
    assert ReleaseAt(s, t);
    assert x in s.sessionMap[t] && LiveAt(s, x);
    assert TargetThread(x, |s.sessionMap|) == t;
    forall u | 0 <= u < |s.release|
      ensures ReleaseAt(s', u)
    {
      assert ReleaseAt(s, u);
    }
    forall id | id in s'.erased
      ensures ErasedAt(s', id)
    {
      if id != x {
        assert ErasedAt(s, id);
      }
    }
  }

  lemma DisconnectRelease(s: State, t: nat)
    requires Inv(s) && Enabled(s, Disconnect(t))
    ensures ReleaseInv(Next(s, Disconnect(t)))
  {
    var s', x := Next(s, Disconnect(t)), s.release[t].id;
    assert ReleaseAt(s, t);
    assert s.queues[t][0] == Key(x, t);
    assert TargetThread(x, |s.sessionMap|) == t;
    forall u | 0 <= u < |s.release|
      ensures ReleaseAt(s', u)
    {
      assert ReleaseAt(s, u);
      if u != t && s.release[u].Erased? {
        assert TargetThread(s.queues[u][0].sessionId, |s.sessionMap|) == u;
      }
    }
    forall id | id in s'.erased
      ensures ErasedAt(s', id)
    {
      assert ErasedAt(s, id);
    }
  }

  lemma ReleaseStep(s: State, a: Action)
    requires Inv(s) && Enabled(s, a)
    ensures Sized(Next(s, a)) && ReleaseInv(Next(s, a))
  {
    match a
    case Erase(t) => EraseRelease(s, t);
    case Disconnect(t) => DisconnectRelease(s, t);
    case Wake(t) => LoopRelease(s, a, t);
    case Look(t) => LoopRelease(s, a, t);
    case Pop(t) => LoopRelease(s, a, t);
    case _ => InsertRelease(s, a);
  }

  lemma StillThereStep(s: State, a: Action, id: SessionId)
    requires Inv(s) && Enabled(s, a) && StillThere(s, id)
    ensures Sized(Next(s, a)) && StillThere(Next(s, a), id)
  {
    if a.Erase? {
      assert ReleaseAt(s, a.t);
    }
  }

  lemma RequestKept(s: State, a: Action, id: SessionId)
    requires Inv(s) && Enabled(s, a) && RequestAt(s, id) && StillThere(s, id)
    ensures Sized(Next(s, a)) && RequestAt(Next(s, a), id)
  {
    var t := TargetThread(id, |s.sessionMap|);
    assert ReleaseAt(s, t);
    if id !in s.erased {
      match a
      case Look(u) => if u == t && s.queues[t] != [] { LookKept(s, t, id); }
      case Erase(u) => if u == t && s.queues[t] != [] { assert s.queues[t] == [s.queues[t][0]] + s.queues[t][1..]; }
      case _ =>
    }
  }

  /** A look that finds nothing passes over no request. */
  lemma LookKept(s: State, t: nat, id: SessionId)
    requires Inv(s) && Enabled(s, Look(t)) && s.queues[t] != [] && id !in s.erased
    requires RequestAt(s, id) && StillThere(s, id) && TargetThread(id, |s.sessionMap|) == t
    ensures Sized(Next(s, Look(t))) && RequestAt(Next(s, Look(t)), id)
  {
    assert s.queues[t] == [s.queues[t][0]] + s.queues[t][1..];
    OwnShard(s, t);
  }

  /** The front key of a queue belongs to its shard. */
  lemma OwnShard(s: State, t: nat)
    requires Inv(s) && t < |s.release| && s.queues[t] != []
    ensures TargetThread(s.queues[t][0].sessionId, |s.sessionMap|) == t == s.queues[t][0].threadId
  {
  }

  lemma RequestStep(s: State, a: Action)
    requires Inv(s) && Enabled(s, a)
    ensures Sized(Next(s, a)) && RequestInv(Next(s, a))
  {
    var s' := Next(s, a);
    forall id | id in s'.requested
      ensures RequestAt(s', id) && StillThere(s', id)
    {
      if id in s.requested {
        RequestKept(s, a, id);
        StillThereStep(s, a, id);
      } else {
        var t := TargetThread(id, |s.sessionMap|);
        assert s'.queues[t] == s.queues[t] + [Key(id, t)];
      }
    }
  }

  lemma InvStep(s: State, a: Action)
    requires Inv(s) && Enabled(s, a)
    ensures Inv(Next(s, a))
  {
    PlacementStep(s, a);
    CountStep(s, a);
    LifeStep(s, a);
    ReleaseStep(s, a);
    RequestStep(s, a);
  }

  // ---- Over every run ----

  ghost predicate Behavior(run: seq<State>, actions: seq<Action>) {
    && |run| == |actions| + 1 && Init(run[0])
    && forall k :: 0 <= k < |actions| ==> StepAt(run, actions, k)
  }

  ghost predicate StepAt(run: seq<State>, actions: seq<Action>, k: nat)
    requires k < |actions| && |run| == |actions| + 1
  {
    Sized(run[k]) && Enabled(run[k], actions[k]) && run[k + 1] == Next(run[k], actions[k])
  }

  lemma InitInv(s: State)
    requires Init(s)
    ensures Inv(s)
  {
    TotalZero(s.sessionMap, Size);
  }

  lemma {:induction false} InvAlways(run: seq<State>, actions: seq<Action>, k: nat)
    requires Behavior(run, actions) && k < |run|
    ensures Inv(run[k])
  {
    if k == 0 {
      InitInv(run[0]);
    } else {
      InvAlways(run, actions, k - 1);
      assert StepAt(run, actions, k - 1);
      InvStep(run[k - 1], actions[k - 1]);
    }
  }

  /** In every state the user count is the number of registered sessions, and every session and every
      release key is in the shard its id determines. */
  lemma CountAndPlacement(run: seq<State>, actions: seq<Action>, k: nat)
    requires Behavior(run, actions) && k < |run|
    ensures run[k].numOfUser == Total(run[k].sessionMap, Size)
    ensures Sized(run[k]) && PlacementInv(run[k])
  {
    InvAlways(run, actions, k);
  }

  /** However often a session is queued for release, it is erased at most once and disconnected at most
      once, after it has been erased; and an erased session is in no map. */
  lemma DisconnectedAtMostOnce(run: seq<State>, actions: seq<Action>, k: nat)
    requires Behavior(run, actions) && k < |run|
    ensures Distinct(run[k].erased) && Distinct(run[k].disconnected)
    ensures forall id :: id in run[k].disconnected ==> id in run[k].erased
    ensures forall t, id :: 0 <= t < |run[k].sessionMap| && id in run[k].sessionMap[t] ==> id !in run[k].erased
  {
    InvAlways(run, actions, k);
    var s := run[k];
    forall t, id | 0 <= t < |s.sessionMap| && id in s.sessionMap[t]
      ensures id !in s.erased
    {
      assert LiveAt(s, id);
    }
  }

  /** An erase always removes a registered session, so the count it lowers never goes below zero. */
  lemma EraseRemoves(run: seq<State>, actions: seq<Action>, k: nat, t: nat)
    requires Behavior(run, actions) && k < |actions| && actions[k] == Erase(t)
    ensures Sized(run[k]) && Sized(run[k + 1]) && t < |run[k].sessionMap| == |run[k + 1].sessionMap|
    ensures |run[k + 1].sessionMap[t]| == |run[k].sessionMap[t]| - 1
    ensures run[k + 1].numOfUser == run[k].numOfUser - 1 >= 0
  {
    InvAlways(run, actions, k);
    InvAlways(run, actions, k + 1);
    assert StepAt(run, actions, k);
    assert ReleaseAt(run[k], t);
  }

  // ---- Told from the steps alone ----

  function Creates(actions: seq<Action>, k: nat): nat
    requires k <= |actions|
  {
    if k == 0 then 0 else Creates(actions, k - 1) + if actions[k - 1].Create? then 1 else 0
  }

  /** Within the first k actions. */
  ghost predicate Did(actions: seq<Action>, k: nat, a: Action)
    requires k <= |actions|
  {
    exists j: nat :: j < k && actions[j] == a
  }

  lemma DidNext(actions: seq<Action>, k: nat, a: Action)
    requires k < |actions|
    ensures Did(actions, k + 1, a) <==> Did(actions, k, a) || actions[k] == a
  {
  }

  /** Sessions are numbered from 1 in the order of their creation, and each is in the shard of its id or has been
      erased exactly if it has been inserted; until then it is pending. */
  lemma {:induction false} InsertedExactly(run: seq<State>, actions: seq<Action>, k: nat, id: SessionId)
    requires Behavior(run, actions) && k < |run|
    ensures Sized(run[k]) && |run[k].sessionMap| == |run[0].sessionMap|
    ensures run[k].idGenerator == Creates(actions, k)
    ensures StillThere(run[k], id) <==> Did(actions, k, Insert(id))
    ensures id in run[k].pending <==> 0 < id <= Creates(actions, k) && !Did(actions, k, Insert(id))
  {
    if k > 0 {
      InsertedExactly(run, actions, k - 1, id);
      InvAlways(run, actions, k - 1);
      assert StepAt(run, actions, k - 1);
      DidNext(actions, k - 1, Insert(id));
      InsertedNext(run[k - 1], actions[k - 1], id);
    }
  }

  lemma InsertedNext(s: State, a: Action, id: SessionId)
    requires Inv(s) && Enabled(s, a)
    ensures Sized(Next(s, a)) && |Next(s, a).sessionMap| == |s.sessionMap|
    ensures StillThere(Next(s, a), id) <==> StillThere(s, id) || a == Insert(id)
    ensures id in Next(s, a).pending <==> (id in s.pending && a != Insert(id)) || (a.Create? && id == s.idGenerator + 1)
    ensures StillThere(s, id) ==> id <= s.idGenerator
  {
    assert id in s.erased ==> GoneAt(s, id);
    assert id in s.sessionMap[TargetThread(id, |s.sessionMap|)] ==> LiveAt(s, id);
    if a.Erase? {
      assert ReleaseAt(s, a.t);
      OwnShard(s, a.t);
    }
  }

  /** Every session with a key in a queue, and every erased one, was asked to be released. */
  ghost predicate AskedFor(s: State, actions: seq<Action>, k: nat)
    requires k <= |actions|
  {
    && (forall t, i :: 0 <= t < |s.queues| && 0 <= i < |s.queues[t]| ==>
          Did(actions, k, Release(s.queues[t][i].sessionId)))
    && forall id :: id in s.erased ==> Did(actions, k, Release(id))
  }

  lemma {:induction false} KeysWereAskedFor(run: seq<State>, actions: seq<Action>, k: nat)
    requires Behavior(run, actions) && k < |run|
    ensures AskedFor(run[k], actions, k)
  {
    if k > 0 {
      KeysWereAskedFor(run, actions, k - 1);
      InvAlways(run, actions, k - 1);
      assert StepAt(run, actions, k - 1);
      var s, s' := run[k - 1], run[k];
      forall id | Did(actions, k - 1, Release(id))
        ensures Did(actions, k, Release(id))
      {
        DidNext(actions, k - 1, Release(id));
      }
      forall t, i | 0 <= t < |s'.queues| && 0 <= i < |s'.queues[t]|
        ensures Did(actions, k, Release(s'.queues[t][i].sessionId))
      {
        QueuedNext(s, actions[k - 1], t, i);
        DidNext(actions, k - 1, Release(s'.queues[t][i].sessionId));
      }
    }
  }

  lemma QueuedNext(s: State, a: Action, t: nat, i: nat)
    requires Inv(s) && Enabled(s, a) && t < |Next(s, a).queues| && i < |Next(s, a).queues[t]|
    ensures t < |s.queues|
    ensures var key := Next(s, a).queues[t][i]; key in s.queues[t] || a == Release(key.sessionId)
  {
  }

  // ---- The queue of a release thread ----

  /** The keys of shard t of n that were queued in the first k steps. */
  function Queued(actions: seq<Action>, k: nat, t: nat, n: nat): seq<Key>
    requires k <= |actions| && n > 0
  {
    if k == 0 then []
    else
      Queued(actions, k - 1, t, n)
      + match actions[k - 1]
        case Release(id) => if TargetThread(id, n) == t then [Key(id, t)] else []
        case _ => []
  }

  function Pops(actions: seq<Action>, k: nat, t: nat): nat
    requires k <= |actions|
  {
    if k == 0 then 0 else Pops(actions, k - 1, t) + if actions[k - 1] == Pop(t) then 1 else 0
  }

  /** Every call of `ReleaseSession` queues a key, whether or not the session is registered, and the keys of a shard
      are taken in that order. */
  lemma {:induction false} QueueExactly(run: seq<State>, actions: seq<Action>, k: nat, t: nat)
    requires Behavior(run, actions) && k < |run| && t < |run[0].queues|
    ensures |run[k].queues| == |run[0].queues|
    ensures var queued := Queued(actions, k, t, |run[0].queues|);
      Pops(actions, k, t) <= |queued| && run[k].queues[t] == queued[Pops(actions, k, t)..]
  {
    if k > 0 {
      QueueExactly(run, actions, k - 1, t);
      InvAlways(run, actions, k - 1);
      assert StepAt(run, actions, k - 1);
      QueueStep(run[k - 1], actions[k - 1], t);
    }
  }

  lemma QueueStep(s: State, a: Action, t: nat)
    requires Inv(s) && Enabled(s, a) && t < |s.queues|
    ensures |Next(s, a).queues| == |s.queues|
    ensures a == Pop(t) ==> s.queues[t] != []
    ensures Next(s, a).queues[t]
         == if a == Pop(t) then s.queues[t][1..]
            else if a.Release? && TargetThread(a.id, |s.queues|) == t then s.queues[t] + [Key(a.id, t)]
            else s.queues[t]
  {
  }

  /** How many steps a release thread in its loop still takes. */
  function LoopLeft(pc: ReleasePc, keys: nat): int {
    match pc
    case Waiting => 0
    case Front => 4 * keys + 1
    case Found(_) => 4 * keys
    case Erased(_) => 4 * keys - 1
    case Popping => 4 * keys - 2
  }

  predicate InLoop(s: State, t: nat) {
    t < |s.release| && s.release[t] != Waiting
  }

  predicate ActsFor(a: Action, t: nat) {
    a in {Look(t), Erase(t), Disconnect(t), Pop(t)}
  }

  function LoopSteps(actions: seq<Action>, i: nat, k: nat, t: nat): nat
    requires i <= k <= |actions|
  {
    if i == k then 0 else LoopSteps(actions, i, k - 1, t) + if ActsFor(actions[k - 1], t) then 1 else 0
  }

  /** A release thread woken up with n keys in its queue is in its loop for at most 4n + 1 steps of its own, and when
      it waits again its queue is empty. */
  lemma {:induction false} ReleaseLoopEnds(run: seq<State>, actions: seq<Action>, i: nat, k: nat, t: nat)
    requires Behavior(run, actions) && i < k < |run| && actions[i] == Wake(t)
    requires forall j :: i < j < k ==> InLoop(run[j], t)
    ensures Sized(run[i]) && Sized(run[k]) && t < |run[i].release| && t < |run[k].release|
    ensures LoopSteps(actions, i + 1, k, t) + LoopLeft(run[k].release[t], |run[k].queues[t]|)
         <= 4 * |run[i].queues[t]| + 1
    ensures run[k].release[t] == Waiting ==> run[k].queues[t] == []
    decreases k
  {
    InvAlways(run, actions, k - 1);
    assert StepAt(run, actions, k - 1);
    assert i + 1 < k ==> InLoop(run[k - 1], t);
    if i + 1 < k {
      ReleaseLoopEnds(run, actions, i, k - 1, t);
      LoopStep(run[k - 1], actions[k - 1], t);
    }
  }

  lemma LoopStep(s: State, a: Action, t: nat)
    requires Inv(s) && Enabled(s, a) && t < |s.release| && s.release[t] != Waiting
    ensures var s' := Next(s, a);
      && Sized(s') && t < |s'.release|
      && LoopLeft(s'.release[t], |s'.queues[t]|) + (if ActsFor(a, t) then 1 else 0)
         <= LoopLeft(s.release[t], |s.queues[t]|)
      && (s'.release[t] == Waiting ==> s'.queues[t] == [])
  {
    assert ReleaseAt(s, t);
  }

  /** A release asked for after the session was inserted. */
  ghost predicate AskedInTime(actions: seq<Action>, k: nat, id: SessionId)
    requires k <= |actions|
  {
    exists j: nat :: j < k && actions[j] == Release(id) && Did(actions, j, Insert(id))
  }

  lemma {:induction false} AskedIsKnown(run: seq<State>, actions: seq<Action>, k: nat, id: SessionId)
    requires Behavior(run, actions) && k < |run| && AskedInTime(actions, k, id)
    ensures id in run[k].requested || id in run[k].erased
  {
    InvAlways(run, actions, k - 1);
    InsertedExactly(run, actions, k - 1, id);
    assert StepAt(run, actions, k - 1);
    if AskedInTime(actions, k - 1, id) {
      AskedIsKnown(run, actions, k - 1, id);
    }
  }

  /** No release is forgotten and nobody is disconnected unasked: when release thread t waits on an empty queue,
      every session of its shard whose release was asked for after it was inserted has been disconnected; and
      those disconnected or erased have been inserted and asked for. */
  lemma NoReleaseForgotten(run: seq<State>, actions: seq<Action>, k: nat, t: nat, id: SessionId)
    requires Behavior(run, actions) && k < |run|
    requires Sized(run[k]) && t < |run[k].release| && TargetThread(id, |run[k].sessionMap|) == t
    ensures run[k].release[t] == Waiting && run[k].queues[t] == [] && AskedInTime(actions, k, id) ==>
      id in run[k].disconnected
    ensures run[k].release[t] == Waiting && id in run[k].erased ==> id in run[k].disconnected
    ensures id in run[k].disconnected ==> id in run[k].erased
    ensures id in run[k].erased ==> Did(actions, k, Insert(id)) && Did(actions, k, Release(id))
  {
    InvAlways(run, actions, k);
    KeysWereAskedFor(run, actions, k);
    InsertedExactly(run, actions, k, id);
    assert id in run[k].erased ==> ErasedAt(run[k], id);
    if AskedInTime(actions, k, id) && run[k].release[t] == Waiting && run[k].queues[t] == [] {
      AskedIsKnown(run, actions, k, id);
      assert id in run[k].requested ==> RequestAt(run[k], id);
    }
  }
}
