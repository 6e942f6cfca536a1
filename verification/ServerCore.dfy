/** `ServerCore`'s session registry, with its methods run to completion one at a time. */
module Server {
  import opened Common
  import opened Registry

  type Socket = nat

  function MapSize(m: map<SessionId, Socket>): nat { |m| }

  /** The sessions a release thread disconnects: the live ones among the keys, each the first time it comes up. */
  function FirstLive(live: set<SessionId>, keys: seq<Key>): seq<SessionId> {
    if keys == [] then []
    else
      var before, id := FirstLive(live, keys[..|keys| - 1]), keys[|keys| - 1].sessionId;
      if id in live && id !in before then before + [id] else before
  }

  ghost function IdsOf(keys: seq<Key>): set<SessionId> {
    set k | k in keys :: k.sessionId
  }

  lemma IdsOfSnoc(keys: seq<Key>, key: Key)
    ensures IdsOf(keys + [key]) == IdsOf(keys) + {key.sessionId}
  {
  }

  /** However often a session is queued, it is disconnected once, and only if it is registered. */
  lemma {:induction false} FirstLiveExact(live: set<SessionId>, keys: seq<Key>)
    ensures Distinct(FirstLive(live, keys))
    ensures forall id :: id in FirstLive(live, keys) <==> id in live && id in IdsOf(keys)
  {
    if keys != [] {
      var init, last := keys[..|keys| - 1], keys[|keys| - 1];
      FirstLiveExact(live, init);
      assert keys == init + [last];
      IdsOfSnoc(init, last);
    }
  }

  /** The shard, and the sessions disconnected, after the first i keys and one more. */
  lemma NextKey(m: map<SessionId, Socket>, keys: seq<Key>, i: nat)
    requires i < |keys|
    ensures var id := keys[i].sessionId; var shard, gone := m - IdsOf(keys[..i]), FirstLive(m.Keys, keys[..i]);
      && m - IdsOf(keys[..i + 1]) == shard - {id}
      && FirstLive(m.Keys, keys[..i + 1]) == gone + if id in shard then [id] else []
  {
    assert keys[..i + 1] == keys[..i] + [keys[i]];
    assert (keys[..i] + [keys[i]])[..i] == keys[..i];
    IdsOfSnoc(keys[..i], keys[i]);
    FirstLiveExact(m.Keys, keys[..i]);
  }

  class ServerCore {
    const numOfLogicThread: nat
    var sessionMap: seq<map<SessionId, Socket>>
    var numOfUser: int
    var releaseThreadsQueue: seq<seq<Key>>
    /** The sessions whose `OnDisconnected` has been called, oldest first. */
    var disconnected: seq<SessionId>

    ghost predicate Placed()
      reads this
    {
      && numOfLogicThread > 0 && |sessionMap| == numOfLogicThread && |releaseThreadsQueue| == numOfLogicThread
      && (forall t, id :: 0 <= t < |sessionMap| && id in sessionMap[t] ==> TargetThread(id, numOfLogicThread) == t)
      && (forall t, i :: 0 <= t < |releaseThreadsQueue| && 0 <= i < |releaseThreadsQueue[t]| ==>
            releaseThreadsQueue[t][i].threadId == t
            && TargetThread(releaseThreadsQueue[t][i].sessionId, numOfLogicThread) == t)
    }

    ghost predicate Counted()
      reads this
    {
      numOfUser == Total(sessionMap, MapSize)
    }

    constructor (n: nat)
      requires n > 0
      ensures Placed() && Counted() && numOfLogicThread == n && numOfUser == 0 && disconnected == []
    {
      numOfLogicThread := n;
      sessionMap, releaseThreadsQueue := seq(n, _ => map[]), seq(n, _ => []);
      numOfUser, disconnected := 0, [];
      new;
      TotalZero(sessionMap, MapSize);
    }

    method InsertSession(id: SessionId, socket: Socket)
      requires Placed()
      modifies this`sessionMap, this`numOfUser
      ensures Placed()
      ensures var t := TargetThread(id, numOfLogicThread);
        && |sessionMap| == |old(sessionMap)|
        && sessionMap[t] == (if id in old(sessionMap)[t] then old(sessionMap)[t] else old(sessionMap)[t][id := socket])
        && (forall u :: 0 <= u < |sessionMap| && u != t ==> sessionMap[u] == old(sessionMap)[u])
        && numOfUser == old(numOfUser) + 1
        && (old(Counted()) && id !in old(sessionMap)[t] ==> Counted())
    {
      var t := TargetThread(id, numOfLogicThread);
      if id !in sessionMap[t] {
        var shard: map<SessionId, Socket> := sessionMap[t][id := socket];
        TotalUpdate(sessionMap, MapSize, t, shard);
        sessionMap := sessionMap[t := shard];
      }
      numOfUser := numOfUser + 1;
    }

    /** A session is found only in the shard of its id; and if it is not found there it is registered nowhere. */
    method FindSession(id: SessionId, threadId: nat) returns (socket: Option<Socket>)
      requires Placed() && threadId < numOfLogicThread
      ensures socket.Some? ==> threadId == TargetThread(id, numOfLogicThread)
      ensures socket.Some? ==> id in sessionMap[threadId] && sessionMap[threadId][id] == socket.value
      ensures socket.None? ==> id !in sessionMap[threadId]
      ensures socket.None? && threadId == TargetThread(id, numOfLogicThread) ==>
        forall t :: 0 <= t < |sessionMap| ==> id !in sessionMap[t]
    {
      socket := if id in sessionMap[threadId] then Some(sessionMap[threadId][id]) else None;
    }

    method EraseSession(id: SessionId, threadId: nat)
      requires Placed() && threadId < numOfLogicThread
      modifies this`sessionMap, this`numOfUser
      ensures Placed()
      ensures sessionMap == old(sessionMap)[threadId := old(sessionMap)[threadId] - {id}]
      ensures numOfUser == old(numOfUser) - 1
      ensures old(Counted()) && id in old(sessionMap)[threadId] ==> Counted()
    {
      TotalUpdate(sessionMap, MapSize, threadId, sessionMap[threadId] - {id});
      if id in sessionMap[threadId] {
        RemovedSize(sessionMap[threadId], id);
      }
      sessionMap := sessionMap[threadId := sessionMap[threadId] - {id}];
      numOfUser := numOfUser - 1;
    }

    method ReleaseSession(id: SessionId, threadId: nat)
      requires Placed() && threadId == TargetThread(id, numOfLogicThread)
      modifies this`releaseThreadsQueue
      ensures Placed()
      ensures releaseThreadsQueue
           == old(releaseThreadsQueue)[threadId := old(releaseThreadsQueue)[threadId] + [Key(id, threadId)]]
    {
      releaseThreadsQueue := releaseThreadsQueue[threadId := releaseThreadsQueue[threadId] + [Key(id, threadId)]];
    }

    /** The body of the release loop: the front key is looked up, its session erased and disconnected. */
    method ReleaseFront(t: nat) returns (found: bool)
      requires Placed() && Counted() && t < numOfLogicThread && releaseThreadsQueue[t] != []
      modifies this
      ensures Placed() && Counted()
      ensures releaseThreadsQueue == old(releaseThreadsQueue)[t := old(releaseThreadsQueue)[t][1..]]
      ensures var id := old(releaseThreadsQueue)[t][0].sessionId;
        && found == (id in old(sessionMap)[t])
        && sessionMap == old(sessionMap)[t := old(sessionMap)[t] - {id}]
        && disconnected == old(disconnected) + (if found then [id] else [])
        && numOfUser == old(numOfUser) - (if found then 1 else 0)
    {
      var key := releaseThreadsQueue[t][0];
      var session := FindSession(key.sessionId, key.threadId);
      found := session.Some?;
      if found {
        EraseSession(key.sessionId, key.threadId);
        disconnected := disconnected + [key.sessionId];
      } else {
        RemoveAbsent(sessionMap[t], key.sessionId);
      }
      releaseThreadsQueue := releaseThreadsQueue[t := releaseThreadsQueue[t][1..]];
    }

    /** How far a release thread is that started with these maps, keys and log, after the first i keys. */
    ghost predicate Released(t: nat, i: nat, keys: seq<Key>, maps: seq<map<SessionId, Socket>>,
                             queues: seq<seq<Key>>, log: seq<SessionId>, users: int)
      requires t < |maps| == |queues| && i <= |keys|
      reads this
    {
      var gone := FirstLive(maps[t].Keys, keys[..i]);
      && releaseThreadsQueue == queues[t := keys[i..]]
      && sessionMap == maps[t := maps[t] - IdsOf(keys[..i])]
      && disconnected == log + gone
      && numOfUser == users - |gone|
    }

    method ReleaseNext(t: nat, ghost i: nat, ghost keys: seq<Key>, ghost maps: seq<map<SessionId, Socket>>,
                       ghost queues: seq<seq<Key>>, ghost log: seq<SessionId>, ghost users: int)
      requires Placed() && Counted() && t < numOfLogicThread == |maps| == |queues| && i < |keys|
      requires Released(t, i, keys, maps, queues, log, users)
      modifies this
      ensures Placed() && Counted() && Released(t, i + 1, keys, maps, queues, log, users)
    {
      assert releaseThreadsQueue[t] == keys[i..] && sessionMap[t] == maps[t] - IdsOf(keys[..i]);
      NextKey(maps[t], keys, i);
      var found := ReleaseFront(t);
    }

    /** The loop of a release thread over its queue, whose mutex it holds throughout. */
    method DrainReleases(t: nat)
      requires Placed() && Counted() && t < numOfLogicThread
      modifies this
      ensures Placed() && Counted()
      ensures releaseThreadsQueue == old(releaseThreadsQueue)[t := []]
      ensures disconnected == old(disconnected) + FirstLive(old(sessionMap)[t].Keys, old(releaseThreadsQueue)[t])
      ensures sessionMap == old(sessionMap)[t := old(sessionMap)[t] - IdsOf(old(releaseThreadsQueue)[t])]
      ensures numOfUser == old(numOfUser) - |FirstLive(old(sessionMap)[t].Keys, old(releaseThreadsQueue)[t])|
    {
      ghost var maps, queues, log, users := sessionMap, releaseThreadsQueue, disconnected, numOfUser;
      ghost var keys, i := queues[t], 0;
      MinusNothing(maps[t]);
      while releaseThreadsQueue[t] != []
        invariant Placed() && Counted()
        invariant 0 <= i <= |keys| && Released(t, i, keys, maps, queues, log, users)
        decreases |keys| - i
      {
        ReleaseNext(t, i, keys, maps, queues, log, users);
        i := i + 1;
      }
      assert keys[..i] == keys && keys[i..] == [];
    }
  }

  lemma RemoveAbsent(m: map<SessionId, Socket>, id: SessionId)
    requires id !in m
    ensures m - {id} == m
  {
  }

  lemma RemovedSize(m: map<SessionId, Socket>, id: SessionId)
    requires id in m
    ensures |m - {id}| == |m| - 1
  {
    assert (m - {id}).Keys == m.Keys - {id};
  }

  lemma MinusNothing(m: map<SessionId, Socket>)
    ensures m - IdsOf([]) == m
  {
  }
}
