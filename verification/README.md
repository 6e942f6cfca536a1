# Verification of the actor server's protocols

Dafny models of the hand-written state machines of an actor server, with proofs of what they keep
over every run. `dafny verify dfyconfig.toml` checks the whole project.

## What is modelled

- **Session send pump and lifetime** (`SessionSteps`): any number of threads run `SendPacket`, `DoSend`,
  `DoRecv` and the completion handlers of one session beside the accept thread, the kernel and the release
  thread. A step is one compare-and-swap, queue operation, store access, post, completion, change of
  `ioCount` or statement of `OnDisconnected`; each thread's program counter holds its `expected`, index and batch size. Posts, completions
  and their outcomes are the environment's choice. `SessionSends` proves ownership, order and conservation;
  `SessionProgress` termination and exactly when a buffer is left behind; `SessionCounting` the IO count and the release
  keys; `SessionMoves`, `SessionTeardown` and `SessionLeftovers` what a disconnect, statement by statement, does to
  the buffers of a session still in use.
  `SessionSpec` says what whole calls do and proves that one thread of the step system does just that;
  `Session` is the class on fields and array, proved against the same specification.
- **Two-phase-commit mediator**: `MediatorSpec` is the machine on events and hook calls, `Mediator` the class
  with map, loops and a log of calls, `MediatorRuns` agreement and exactness over every history, `MediatorLife` when a
  transaction opens and ends by the events alone, `MediatorIsolation` non-interference.
- **Stream framing**: `Framing`, `ReceiveLimit` and `SimpleClient` for the client's loop, `ServerFraming`,
  `ServedStream` and `ServerSession` for the server's, over one abstract format (header of at least 3 bytes,
  default size of at least 1, any decoder that sees header and payload). `Frames` is the sender's side.
- **Registry**: `Registry` interleaves accept, releasing and release threads over the sharded maps, each locked
  section one step; `ServerCore` is the class.
- **Mailbox**: `Mailbox` interleaves senders with `ProcessMessage`; `Actor` is the class. `EndToEnd` composes
  session, ring and mailbox into one system and proves the order of executed handlers.
- **Argument deserializer**: `ArgumentCodec` gives the encoder and the parser, `Deserializer` the cursor in place
  and the packet handlers.
- **Ticker**: `TickerSteps` interleaves registrations, removals and ticks, `TickerRates` bounds the firing rate,
  `Ticker` holds the classes.

Classes are the source's objects with their methods run to completion one at a time; the step systems say what
interleavings do. History (what was enqueued, sent, freed, accepted, who owns) is kept in fields marked as such
or computed along the run.

## Where the code has a limit

- A buffer can stay queued with nobody to send it: `SessionProgress.StrandedExactly` says at which steps, and
  `SessionProgress.WakeUpCanBeLost` gives a run without any failure.
- `OnDisconnected` waits for no thread. Beside a thread in the send code, or a posted send, it can free a buffer twice
  (`SessionTeardown.FreedTwiceExactly`), free one that is being sent (`SessionLeftovers.SendsFreedExactly`), leave one
  to nobody (`SessionLeftovers.AbandonedExactly`) or drain one that a fill loop counts on
  (`SessionSends.SuppliedExactly`): each of these says exactly when. `SessionLeftovers.FreedTwice`,
  `SessionLeftovers.FreedTwiceByOwner` and `SessionLeftovers.FillFindsNothing` give runs.
- A session can be queued for release more than once, exactly when a send raises the count after it first reached 0
  (`SessionCounting.TwoKeysExactly`); the registry tolerates it (`Registry.DisconnectedAtMostOnce`).
- A completion that finds its session unregistered is dropped with its hold, so that count never returns to 0
  (`SessionCounting.IdleMeansReleased`).
- The client's framing depends on how the stream is cut only where one receive can complete a frame that declares
  more than the default size. Its receives are of at most 8 bytes, so with a default size of 8 or more it does not
  depend on the cut at all (`ReceiveLimit.SmallReceivesAgree`); with a smaller one it does exactly under the condition
  of `ReceiveLimit.CutsAgreeExactly`. The default size is a constant of the buffer library, which is not part of this model.
- The server's framing does not wait for the rest of a partial frame (`ServerFraming.ServesLikeClientExactly`), so a
  stream is served as sent exactly as long as no receive leaves one (`ServedStream.KeepsInStepExactly`).
- Rolling back an id that is not active announces a failure (`MediatorRuns.SilentUnlessAborted`), for a decided one a
  second time (`MediatorRuns.SpokenAgainExactly`).
- Registering a timer whose removal is pending has no effect (`TickerSteps.RegisterIsLost`).

Where code and documentation differ the code is followed:

- The repository's `README.md:212` describes a prepare request after a transaction starts; `StartTransaction` sends none.
- `README.md:58` says that a stopped actor stops consuming queued messages; a batch whose `ProcessMessage` is past
  the check still runs (`Mailbox.OneQueue` allows that one batch).
- The transaction id generator starts at 1 and is incremented before use, so the first id is 2.
- The first firing of a timer comes two intervals after its registration, since `RegisterTimerEvent` adds one and
  `SetNextTick` another.

## Model

| member | source | states |
|---|---|---|
| `SessionSends.OneOwner` | ActorModelServer/ActorModelServer/Session.cpp:112-164 | in every state of every run: at most one thread is past its compare-and-swap; while it is, `ioMode` is SENDING and no send is posted; SENDING means such a thread, a posted send or a send that failed for good; a thread is at line 117 with `expected` SENDING only as that owner |
| `SessionSends.SendInvStep` | ActorModelServer/ActorModelServer/Session.cpp:112-164 | every step of every thread and of a teardown keeps ownership, the bounds of the store and the batch sizes, and, until the teardown resets the count and drains the queue, the order |
| `SessionSends.SendInvAlways` | ActorModelServer/ActorModelServer/Session.cpp:112-164 | so they hold in every state of every run |
| `SessionSends.SafeAlways` | ActorModelServer/ActorModelServer/Session.cpp:112-164 | ownership, the bounds of the store and the sizes of batches hold in every state of every run, whatever a teardown does |
| `SessionSends.BatchesInOrder` | ActorModelServer/ActorModelServer/Session.cpp:122-150 | until a teardown drains the queue the concatenation of all `WSASend` batches is a prefix of the enqueue order; always every batch has 1 to 20 buffers, and `bufferCount` is 0 whenever `ioMode` is NONE |
| `SessionSends.EnqueuedExactly` | ActorModelServer/ActorModelServer/Session.cpp:62-73 | in every run the enqueued buffers are those handed to `SendPacket`, in the order of the calls |
| `SessionSends.EveryStatementSafe` | ActorModelServer/ActorModelServer/Session.cpp:138-147 | in any run, wherever a thread or the teardown stands: each store index exists and `bufferCount += restSize` stays within the 20 places of the store; a dequeue of the fill loop finds nothing only after a teardown has drained a buffer that such a loop counted on |
| `SessionSends.SuppliedExactly` | ActorModelServer/ActorModelServer/Session.cpp:122-143 | in every run the fill loop has had a buffer in the queue for every turn left in every state so far iff the teardown has drained none it counted on |
| `SessionLeftovers.NoBufferLostOrFreedTwice` | ActorModelServer/ActorModelServer/Session.cpp:141-147 | in every run, whatever a teardown does, an enqueued buffer is in the queue, in the store and still to be freed, or freed, and in only one of them; and each has been freed at most once iff owner and teardown have not collided |
| `SessionTeardown.FreedTwiceExactly` | ActorModelServer/ActorModelServer/Session.cpp:35-48 | in every run, `OnDisconnected` taken statement by statement beside all threads, its tests apart from its frees: the buffers freed are enqueued ones, each freed once, iff no step so far was one of two, given by position: the teardown's free of place 0 when the owner has freed that batch's place 0, or the owner's free of place 0 when the teardown has |
| `SessionTeardown.CollisionFrees` | ActorModelServer/ActorModelServer/ServerCore.cpp:465-471 | while there has been none of those steps, a step frees a place that holds no buffer to free iff it is one of them |
| `SessionTeardown.PlacesAlways` | ActorModelServer/ActorModelServer/Session.cpp:141-143 | in every run each buffer is in at most one place, and which places hold one still to be freed, by where the owner stands, what the teardown has freed and what the fill loop missed |
| `SessionLeftovers.AbandonedExactly` | ActorModelServer/ActorModelServer/Session.cpp:35-48 | in every run each buffer in the store has at all times been due to the owner, a completion still to be handled or the teardown iff no step so far reset the count of a batch on its way to the kernel with a place of it unfreed, or posted a batch of which the teardown will free no more with a place of it unfreed |
| `SessionLeftovers.AbandonsByPosition` | ActorModelServer/ActorModelServer/Session.cpp:35-39 | in every run without a collision so far, until the teardown has reset the count: those are the steps at its reset, having freed fewer than are counted, by which it resets a batch on its way to the kernel or that batch is posted |
| `SessionLeftovers.SendsFreedExactly` | ActorModelServer/ActorModelServer/Session.cpp:141-150 | in every run a buffer about to be posted or being sent has been freed, or is none, iff the teardown has freed its place since it was written or the fill loop found no buffer for it |
| `SessionLeftovers.TeardownFreesAll` | ActorModelServer/ActorModelServer/Session.cpp:21-49 | at the end of a run exactly the enqueued buffers have been freed, each once, iff there has been no collision and no step that abandoned one |
| `SessionLeftovers.DoomedOnceAbandoned` | ActorModelServer/ActorModelServer/ServerCore.cpp:297-303 | an abandoned buffer is never freed: no completion of a disconnected session is handled |
| `SessionLeftovers.QuietTeardownFreesAll` | ActorModelServer/ActorModelServer/Session.cpp:21-49 | so they are after a teardown throughout which no thread is in the send code, be a send posted or not |
| `SessionSpec.TeardownAlone` | ActorModelServer/ActorModelServer/Session.cpp:35-48 | run without interference those statements are exactly the whole-call specification |
| `SessionLeftovers.FreedTwice` | ActorModelServer/ActorModelServer/ServerCore.cpp:368-372 | a run in which the teardown frees a buffer after the owner |
| `SessionLeftovers.FreedTwiceByOwner` | ActorModelServer/ActorModelServer/ServerCore.cpp:465-468 | a run in which the owner frees a buffer after the teardown, though it had freed none when the teardown began |
| `SessionLeftovers.FillFindsNothing` | ActorModelServer/ActorModelServer/Session.cpp:141-146 | a run in which the fill loop is to dequeue from a queue the teardown has drained |
| `SessionSends.DeadForever` | ActorModelServer/ActorModelServer/Session.cpp:150-158 | from a failed post or a failed or empty completion on, for the rest of the run, `ioMode` stays SENDING and nothing is batched, stored or posted |
| `SessionProgress.SendCodeBounded` | ActorModelServer/ActorModelServer/Session.cpp:112-164 | wait-freedom: in any run, whatever the other threads do, a `DoSend` executes at most 30 own statements, two passes included |
| `SessionProgress.RecvCodeBounded` | ActorModelServer/ActorModelServer/ServerCore.cpp:453-461 | a thread that handles a receive completion, or a send completion that failed, executes at most five further statements, the drain loop counting as one |
| `SessionProgress.ResultExactly` | ActorModelServer/ActorModelServer/Session.cpp:112-164 | in every run a thread whose last `DoSend` is over has got false from it iff a post that it made in that call failed; every other exit, finding `ioMode` SENDING among them, returns true |
| `SessionProgress.StrandedExactly` | ActorModelServer/ActorModelServer/Session.cpp:122-130 | a step leaves a buffer queued that nobody will send iff it is the release in the second pass with a buffer queued and no thread about to try, a failing post with more queued than its batch, a failed or dropped completion with a buffer queued, or an enqueue onto a dead send |
| `SessionProgress.StrandedInRun` | ActorModelServer/ActorModelServer/Session.cpp:112-164 | in every run no state has had such a buffer iff none of its steps was one of these |
| `SessionProgress.WakeUpCanBeLost` | ActorModelServer/ActorModelServer/Session.cpp:122-130 | such a state is reachable: a buffer stays queued, `ioMode` is NONE and every thread is idle |
| `SessionCounting.CountExact` | ActorModelServer/ActorModelServer/Session.cpp:187-198 | in every state `ioCount` is the accept hold plus sends and receives being posted, posted or not yet retired, plus completions dropped for an unregistered session |
| `SessionCounting.LostExactly` | ActorModelServer/ActorModelServer/ServerCore.cpp:297-303 | the completions dropped are those that found their session unregistered, and none of them lowers the count |
| `SessionCounting.HeldUntilReceivesEnd` | ActorModelServer/ActorModelServer/ServerCore.cpp:232-252 | from the accept hold until the accept thread is done and the receive chain has ended the count is at least 1 and no release key exists |
| `SessionCounting.OneReceive` | ActorModelServer/ActorModelServer/ServerCore.cpp:413-461 | at most one receive is outstanding per session, and its completion always finds the session registered |
| `SessionCounting.ChainGoesOn` | ActorModelServer/ActorModelServer/ServerCore.cpp:413-461 | in every run somebody carries the chain of receives on, the accept thread before its post, a posted receive or one IO thread, iff no association, receive post, receive completion or drain loop has failed so far |
| `SessionCounting.RegisteredExactly` | ActorModelServer/ActorModelServer/ServerCore.cpp:232-252 | in every run the accept thread stands where the outcomes of its statements so far take it, and the session is registered iff it has been associated and inserted and not erased |
| `SessionCounting.IdleMeansReleased` | ActorModelServer/ActorModelServer/ServerCore.cpp:297-315 | a session nobody works on has a count equal to its dropped completions, and has been released when there were none |
| `SessionCounting.RevivedOnlyBySend` | ActorModelServer/ActorModelServer/Session.cpp:149 | in every run, once the count has reached 0 only `DoSend`'s increment can raise it |
| `SessionCounting.TwoKeysExactly` | ActorModelServer/ActorModelServer/Session.cpp:149-157 | in every run a second call of `ReleaseSession` needs an increment of `DoSend` after the count first reached 0; and a session at rest with no completion dropped has seen a second call iff there was one |
| `SessionCounting.TwoReleaseKeys` | ActorModelServer/ActorModelServer/Session.cpp:192-205 | a run exists in which one session is queued for release twice |
| `SessionCounting.SessionInvAlways` | ActorModelServer/ActorModelServer/ServerCore.cpp:393-475 | the invariants of the count, the receive chain, the past, the fresh and the disconnected session hold in every state of every run: a session being disconnected is never registered again |
| `SessionSpec.DoSendAlone` | ActorModelServer/ActorModelServer/Session.cpp:112-164 | the step system run by one thread from the entry of `DoSend` arrives at exactly the whole-call specification, for every queue and either outcome of the post, having returned false iff it posted and the post failed |
| `SessionSpec.CompletionAlone` | ActorModelServer/ActorModelServer/ServerCore.cpp:463-475 | likewise for `OnSendIoCompleted`, its `DoSend` and what it returns included |
| `SessionSpec.NothingWaitsUnposted` | ActorModelServer/ActorModelServer/Session.cpp:62-73 | over every run of whole calls whose posts succeed, after each call a non-empty queue has a posted send |
| `SessionSpec.CompletionsDrain` | ActorModelServer/ActorModelServer/ServerCore.cpp:463-475 | behind a posted send with q queued buffers, k completions up to ceil(q/20) each leave a send posted and take exactly the next min(20k, q) buffers |
| `SessionSpec.CompletionsInOrder` | ActorModelServer/ActorModelServer/ServerCore.cpp:463-475 | those completions batch the queue in queue order |
| `SessionSpec.CompletionsStop` | ActorModelServer/ActorModelServer/ServerCore.cpp:463-475 | one completion more returns `ioMode` to NONE with nothing queued, stored or posted and the whole queue sent |
| `SessionObject.Session.DoSend` | ActorModelServer/ActorModelServer/Session.cpp:112-164 | on the fields and the store array: with the send side free and a queue, one post of the first 20 buffers or all, one IO counted iff it is posted; otherwise nothing changes and true is returned; false iff that post failed; and so does the specification |
| `SessionObject.Session.SendPacket` | ActorModelServer/ActorModelServer/Session.cpp:62-73 | a null buffer changes nothing and returns false; otherwise enqueue, then `DoSend`: false iff a post was made and failed, true whenever a send is already posted |
| `SessionObject.Session.OnSendIoCompleted` | ActorModelServer/ActorModelServer/ServerCore.cpp:463-475 | frees the batch in order, resets the count, gives the send side back, retires the send and sends again; false iff that send was posted and failed |
| `SessionObject.Session.OnDisconnected` | ActorModelServer/ActorModelServer/Session.cpp:35-48 | stored, then queued buffers are freed; freed is then exactly what was enqueued |
| `SessionObject.Session.DecreaseIOCount` | ActorModelServer/ActorModelServer/Session.cpp:192-198 | decrements, and queues a release key when the count reaches 0 |
| `MediatorRuns.ConsistentAlways` | ActorModelServer/ActorModelServer/MediatorBase.cpp:6-55 | between any two events of any history every active transaction is PENDING under its own id, has only WAITING or PREPARED participants, and has none or one that is not PREPARED |
| `MediatorLife.GeneratorCounts` | ActorModelServer/ActorModelServer/MediatorBase.h:64 | the first transaction has id 2 and the n-th start id n + 1 |
| `MediatorLife.ActiveExactly` | ActorModelServer/ActorModelServer/MediatorBase.cpp:6-55 | before any event of any history a transaction is active iff an earlier event started it and none since has made an outcome or request call about it |
| `MediatorLife.OpenExactly` | ActorModelServer/ActorModelServer/MediatorBase.cpp:24-55 | the same without states or calls: active iff an event has started it and none since was its last success reply, a failure reply of a participant, its roll back or a sweep past its timeout |
| `MediatorLife.CompletesFromEvents` | ActorModelServer/ActorModelServer/MediatorBase.cpp:42-49 | told by starts, replies, roll backs and sweeps alone: completion at an event iff it is the success reply of a named participant to a transaction not yet ended and all the others have replied so |
| `MediatorLife.FailsFromEvents` | ActorModelServer/ActorModelServer/MediatorBase.cpp:50-54 | likewise: failure iff the event rolls the id back, or is a failure reply of a named participant or a sweep past the timeout of a transaction not yet ended |
| `MediatorRuns.NeverBack` | ActorModelServer/ActorModelServer/MediatorBase.cpp:57-60 | a transaction once gone never becomes active again: ids are not reused |
| `MediatorRuns.SpokenAgainExactly` | ActorModelServer/ActorModelServer/MediatorBase.cpp:87-103 | once an event has spoken of a transaction ever started, a later event says anything about it iff it rolls that very id back, and then it announces a failure once more |
| `MediatorRuns.DecidedOnce` | ActorModelServer/ActorModelServer/MediatorBase.cpp:24-103 | if the id is rolled back only while active, then after an event with an outcome or request no later event says anything about it, whatever becomes of other ids |
| `MediatorRuns.Agreement` | ActorModelServer/ActorModelServer/MediatorBase.cpp:70-103 | likewise: any two outcome or request calls about one transaction come from the same event and the same side, together with its outcome |
| `MediatorRuns.SilentUnlessAborted` | ActorModelServer/ActorModelServer/MediatorBase.cpp:87-103 | about an id that is no longer active an event says something if and only if it rolls back that very id; it then announces one failure and leaves the state as it was, no phantom entry included |
| `MediatorRuns.PreparedIffReported` | ActorModelServer/ActorModelServer/MediatorBase.cpp:42-44 | in an active transaction a participant is PREPARED if and only if it has reported success |
| `MediatorRuns.OpenedByStart` | ActorModelServer/ActorModelServer/MediatorBase.cpp:6-22 | an active transaction has exactly the participants, start time and timeout of the one start event that opened it |
| `MediatorRuns.CompletesExactly` | ActorModelServer/ActorModelServer/MediatorBase.cpp:42-49 | completion at an event if and only if it is the success reply of a participant and all others have reported success before |
| `MediatorRuns.CommitsReachAll` | ActorModelServer/ActorModelServer/MediatorBase.cpp:70-85 | a commit request goes out exactly with a completion and to exactly the participants its start event named, and never beside a rollback or failure |
| `MediatorRuns.CommittedHasReported` | ActorModelServer/ActorModelServer/MediatorBase.cpp:42-49 | no participant is asked to commit that has not itself reported success |
| `MediatorRuns.FailsExactly` | ActorModelServer/ActorModelServer/MediatorBase.cpp:87-122 | failure at an event if and only if it rolls the id back, is a failure reply of a participant, or is a sweep past the timeout |
| `MediatorRuns.RollbacksReachPrepared` | ActorModelServer/ActorModelServer/MediatorBase.cpp:92-97 | rollback requests go exactly to the participants that had reported success, without the one whose failure decided |
| `MediatorRuns.FailureDecides` | ActorModelServer/ActorModelServer/MediatorBase.cpp:50-54 | a failure report ends the transaction for good |
| `MediatorRuns.SweepExact` | ActorModelServer/ActorModelServer/MediatorBase.cpp:105-122 | a sweep keeps exactly the transactions within their timeout, untouched; each of the others fails in it |
| `MediatorIsolation.Isolated` | ActorModelServer/ActorModelServer/MediatorBase.cpp:6-122 | for any interleaved history, state and calls of one transaction equal those of a mediator that sees only its own events and the sweeps |
| `Mediator.MediatorBase.StartTransaction` | ActorModelServer/ActorModelServer/MediatorBase.cpp:6-22 | the new entry, the id one above the last, and one started call |
| `Mediator.MediatorBase.OnParticipantReady` | ActorModelServer/ActorModelServer/MediatorBase.cpp:24-55 | new state and calls are those of the reply event, which by `MediatorLife.OpenExactly` keeps a transaction it does not decide; calls are made once each and the outcome after its requests |
| `Mediator.MediatorBase.CommitTransaction` | ActorModelServer/ActorModelServer/MediatorBase.cpp:70-85 | one commit request to each participant, then completion, then the entry is gone |
| `Mediator.MediatorBase.RollbackTransaction` | ActorModelServer/ActorModelServer/MediatorBase.cpp:87-103 | one rollback request to each prepared participant, then failure, then no entry, also for an unknown id |
| `Mediator.MediatorBase.OnTimer` | ActorModelServer/ActorModelServer/MediatorBase.cpp:105-122 | rolls back exactly the expired transactions, each once |
| `Framing.DrainAppend` | ActorModelServer/TestClient/SimpleClient.cpp:251-290 | draining a prefix, then the leftover with the rest, gives what draining everything at once gives |
| `Framing.ChunkingExactly` | ActorModelServer/TestClient/SimpleClient.cpp:251-290 | for receives of any length: packets, result and leftover are the same for every way of cutting the stream if and only if no complete decodable frame on the parse path declares more than the default size |
| `ReceiveLimit.CutsAgreeExactly` | ActorModelServer/TestClient/SimpleClient.cpp:214-290 | for receives of at most a limit, as the 8 bytes of line 216: all cuts agree iff the parse reaches no oversize frame that one receive can complete and that decodes |
| `ReceiveLimit.SmallReceivesAgree` | ActorModelServer/TestClient/SimpleClient.cpp:214-290 | receives of no more than the default size always agree: every cut gives the parse that fails at any oversize frame |
| `ReceiveLimit.OversizeGetsThrough` | ActorModelServer/TestClient/SimpleClient.cpp:262-271 | otherwise a cut within the limit lets the oversize frame through, and yields more packets than that parse |
| `ReceiveLimit.SomeCutsDiffer` | ActorModelServer/TestClient/SimpleClient.cpp:216 | with a limit of 2 or more there are a format with a smaller default size and a stream for which cuts differ |
| `Framing.LeftoverBound` | ActorModelServer/TestClient/SimpleClient.cpp:255-271 | a successful drain leaves a suffix of the ring shorter than header plus default size |
| `Framing.RingNeverFull` | ActorModelServer/TestClient/SimpleClient.cpp:216-232 | so it does after every receive of every connection |
| `Client.SimpleClient.MakePacketsFromRingBuffer` | ActorModelServer/TestClient/SimpleClient.cpp:251-290 | the loop on the ring computes exactly that parse; `restSize` stays equal to the used size and falls by at least a header on every pass |
| `Frames.DrainsWhatWasSent` | ActorModelServer/TestClient/SimpleClient.cpp:255-290 | for packets written as first byte, payload length low byte first, rest of the header and payload, of any lengths below 65536: the loop on their bytes joined yields exactly their decoded payloads and leaves what follows |
| `Frames.FailsAtBadFrame` | ActorModelServer/TestClient/SimpleClient.cpp:278-283 | behind such packets a frame that does not decode ends the loop with false, their payloads queued and the frame taken |
| `Frames.WaitsForTheRest` | ActorModelServer/TestClient/SimpleClient.cpp:261-270 | a first part of a frame is left in the ring, and it is a failure iff the payload is longer than the default size |
| `Frames.TwoBytePayload` | ActorModelServer/TestClient/SimpleClient.cpp:261-275 | with a three-byte header the five bytes 0, 2, 0, 7, 7 are a packet of two bytes |
| `Client.SimpleClient.DoRecv` | ActorModelServer/TestClient/SimpleClient.cpp:214-249 | the four outcomes of a receive, a full ring and a closed or failed socket included |
| `Client.SimpleClient.RunRecvThread` | ActorModelServer/TestClient/SimpleClient.cpp:214-290 | with room for one frame of default size and one chunk the ring is never found full: what is queued over the whole run is what the bytes yield, up to the first failure |
| `ServerFraming.ServesLikeClientExactly` | ActorModelServer/ActorModelServer/ServerCore.cpp:413-456 | on every ring the client can drain into accepted messages the server loop does the same if and only if the client would leave no more than a header |
| `ServerFraming.SwallowsPartialFrame` | ActorModelServer/ActorModelServer/ServerCore.cpp:483-498 | a partial frame of admissible length is not waited for: the loop takes its bytes too |
| `ServerFraming.WholeFramesServed` | ActorModelServer/ActorModelServer/ServerCore.cpp:413-501 | on any concatenation of whole non-empty frames that decode to accepted messages server and client take exactly those frames in order and empty the ring |
| `ServerSession.ReceiveSide.RecvStreamToBuffer` | ActorModelServer/ActorModelServer/ServerCore.cpp:477-501 | what one call takes off the ring, what it decodes, and that `restSize` tracks the ring |
| `Frames.ServesWhatWasSent` | ActorModelServer/ActorModelServer/ServerCore.cpp:477-501 | the server loop on the bytes of such packets joined sends exactly their messages, in order |
| `Frames.ServerFailsAtBadFrame` | ActorModelServer/ActorModelServer/ServerCore.cpp:425-451 | behind such packets a frame that does not decode or has no handler ends the loop with false, their messages sent and the frame taken |
| `Frames.StoppedLosesFrame` | ActorModelServer/ActorModelServer/ServerCore.cpp:436-451 | a stopped actor refuses the first message; its frame is taken and the loop fails |
| `Frames.ServesPartOfFrame` | ActorModelServer/ActorModelServer/ServerCore.cpp:482-493 | what the loop makes of a first part of a frame: a failure that leaves the ring if the payload is longer than the default size, otherwise what there is of it is taken for the payload |
| `ServerSession.ReceiveSide.OnRecvIoCompleted` | ActorModelServer/ActorModelServer/ServerCore.cpp:413-456 | the loop sends exactly the messages of the served ring to the mailbox, in order, and stops at the first frame it rejects |
| `Registry.CountAndPlacement` | ActorModelServer/ActorModelServer/ServerCore.cpp:79-82 | in every state `numOfUser` is the total size of all maps, and every session and release key is in the shard of its id |
| `Registry.InsertedExactly` | ActorModelServer/ActorModelServer/ServerCore.cpp:666-672 | sessions are numbered from 1 as they are created; each is in the shard of its id or erased iff it has been inserted, and pending iff created and not inserted |
| `Registry.ShardsRepeat` | ActorModelServer/ActorModelServer/ServerCore.cpp:79-82 | ids below the number n of threads have the shard of their own number, and id and id + n the same |
| `Registry.ShardsSpread` | ActorModelServer/ActorModelServer/ServerCore.cpp:79-82 | any n consecutive ids are in n different shards |
| `Registry.DisconnectedAtMostOnce` | ActorModelServer/ActorModelServer/ServerCore.cpp:362-376 | however often it is queued, a session is erased and disconnected at most once, and an erased session is in no map |
| `Registry.EraseRemoves` | ActorModelServer/ActorModelServer/ServerCore.cpp:690-696 | every erase removes a registered session, so the count never goes below zero |
| `Registry.NoReleaseForgotten` | ActorModelServer/ActorModelServer/ServerCore.cpp:362-376 | when a release thread waits on an empty queue every session of its shard whose release was asked for after its insertion has been disconnected; whoever is disconnected was erased, and whoever is erased was inserted and asked for |
| `Registry.QueueExactly` | ActorModelServer/ActorModelServer/ServerCore.cpp:603-608 | every call of `ReleaseSession` queues a key, the session registered or not, and the keys of a shard are taken in the order of the calls |
| `Registry.ReleaseLoopEnds` | ActorModelServer/ActorModelServer/ServerCore.cpp:362-376 | a release thread woken with n keys in its queue takes at most 4n + 1 steps in its loop, and when it waits again the queue is empty |
| `Registry.InvAlways` | ActorModelServer/ActorModelServer/ServerCore.cpp:603-708 | the invariant of placement, count, session lives, release loops and requests holds in every state of every run |
| `Server.FirstLiveExact` | ActorModelServer/ActorModelServer/ServerCore.cpp:365-375 | the sessions a drain disconnects are exactly the queued ones that are registered, each once |
| `Server.ServerCore.InsertSession` | ActorModelServer/ActorModelServer/ServerCore.cpp:666-672 | only the target shard changes; the count stays exact for a new id |
| `Server.ServerCore.EraseSession` | ActorModelServer/ActorModelServer/ServerCore.cpp:690-696 | only that id leaves only that shard; the count stays exact if it was there |
| `Server.ServerCore.FindSession` | ActorModelServer/ActorModelServer/ServerCore.cpp:698-708 | a session is found only in the shard of its id; not found there it is registered in no shard |
| `Server.ServerCore.ReleaseSession` | ActorModelServer/ActorModelServer/ServerCore.cpp:603-608 | the key is appended to its own queue, which keeps keys in the shard of their id |
| `Server.ServerCore.DrainReleases` | ActorModelServer/ActorModelServer/ServerCore.cpp:362-376 | the loop empties its queue; the shard loses exactly the queued ids, and each registered one is disconnected once, in order of its first key |
| `Mailbox.OneQueue` | ActorModelServer/ActorModelServer/Actor.cpp:36-60 | in every run with any senders: accepted messages in lock order are consumed, then `consumerQueue`, then `storeQueue`; at most one batch is taken after `Stop` |
| `Mailbox.DrainEnds` | ActorModelServer/ActorModelServer/Actor.cpp:48-59 | a call that swapped n messages is in its drain loop for at most 2n + 1 own steps, whatever is sent meanwhile, by its own handlers too |
| `Mailbox.ReturnsAfterBatch` | ActorModelServer/ActorModelServer/Actor.cpp:36-60 | a call that swaps and returns has consumed exactly what was stored when it swapped, in order |
| `Mailbox.ExecutedPrefix` | ActorModelServer/ActorModelServer/Actor.cpp:50-58 | the handlers executed are a prefix of the accepted non-null messages |
| `Mailbox.ExecutedWereRun` | ActorModelServer/ActorModelServer/Actor.cpp:48-59 | and they are exactly those at which the logic thread came to run a function at the front of its queue, in that order |
| `Mailbox.PassedExactly` | ActorModelServer/ActorModelServer/Actor.h:174-201 | a sender is about to push a message iff that is the one it last checked and no stop came before the check |
| `Mailbox.AcceptedExactly` | ActorModelServer/ActorModelServer/Actor.h:174-201 | the accepted messages are those of the pushes, one for each in their order |
| `Mailbox.StopIsFinal` | ActorModelServer/ActorModelServer/Actor.cpp:36-47 | a call of `ProcessMessage` enters iff no stop came before it, and of all swaps after the first stop there is one at most |
| `ActorObject.Actor.ProcessMessage` | ActorModelServer/ActorModelServer/Actor.cpp:36-60 | executes exactly the stored messages in order, null ones skipped; afterwards stored, and accepted since, is what the handlers up to the first that stops the actor sent to it, end to end, that one included; it is stopped iff there is one; a stopped actor executes nothing |
| `ActorObject.RunBatchExactly` | ActorModelServer/ActorModelServer/Actor.cpp:48-59 | what a batch sends to its own actor and whether it stops it, message by message |
| `ActorObject.Actor.SendMessage` | ActorModelServer/ActorModelServer/Actor.h:174-201 | refused when stopped, otherwise appended |
| `EndToEnd.ProjectsToSession` | ActorModelServer/ActorModelServer/ServerCore.cpp:413-461 | what a session goes through in a run of the combined system is a run of the session system |
| `EndToEnd.InvAlways` | ActorModelServer/ActorModelServer/ServerCore.cpp:413-461 | the invariant tying received bytes, ring, held message and mailbox holds in every state of every run |
| `EndToEnd.DrainLoopEnds` | ActorModelServer/ActorModelServer/ServerCore.cpp:413-453 | a thread that comes to the drain loop with n bytes in the ring takes at most 2n + 2 steps in it, whatever the others do |
| `EndToEnd.ExecutedInServedOrder` | ActorModelServer/ActorModelServer/ServerCore.cpp:413-461 | for every interleaving and every cut of the stream the network handlers run are a prefix of the accepted messages, and those a prefix of what the server loop makes of the chunks received, one after the other |
| `EndToEnd.ExecutedInStreamOrder` | ActorModelServer/ActorModelServer/ServerCore.cpp:413-461 | when the receives leave whole frames, that is a prefix of the messages decoded from the received bytes, in stream order, and all of them once the next receive is posted |
| `EndToEnd.NothingLost` | ActorModelServer/ActorModelServer/ServerCore.cpp:413-461 | whenever the next receive is posted every message of the chunks received has been accepted, and once the mailbox is empty the handler of each has been run |
| `EndToEnd.ExecutedWereRun` | ActorModelServer/ActorModelServer/Actor.cpp:48-59 | in the combined system too handlers counted as executed are those the logic thread came to run, and nobody else runs any |
| `EndToEnd.SentThenRun` | ActorModelServer/ActorModelServer/ServerCore.cpp:413-461 | from sender to handlers: if the chunks received are the bytes of the packets sent, whole frames at each, the handlers run are a prefix of the messages of those packets in order, and all of them once the next receive is posted and the mailbox is empty |
| `ServedStream.WholeReceivesServed` | ActorModelServer/ActorModelServer/ServerCore.cpp:413-456 | receives that leave whole frames yield exactly the messages of the stream they make up |
| `ServedStream.KeepsInStepExactly` | ActorModelServer/ActorModelServer/ServerCore.cpp:483-498 | where the client parses the stream to its end into accepted messages, the server keeps in step with it, messages and ring, iff no receive leaves a partial frame |
| `ServedStream.PartialFrameMisserved` | ActorModelServer/ActorModelServer/ServerCore.cpp:483-498 | two receives that split a frame and make the server produce a message the stream does not hold |
| `ArgumentCodec.DecodesExactly` | ActorModelServer/ActorModelServer/Actor.h:12-104 | for every list of parameter types: values vs with remainder r are read if and only if vs have the types and encode(vs) followed by r is the input |
| `ArgumentCodec.Unambiguous` | ActorModelServer/ActorModelServer/Actor.h:12-104 | no two argument lists of the same types, with whatever remainders, share an encoding |
| `ArgumentCodec.FailsExactly` | ActorModelServer/ActorModelServer/Actor.h:12-104 | reading fails if and only if no encoding of such values begins the input |
| `ArgumentCodec.FailsAtOne` | ActorModelServer/ActorModelServer/Actor.h:68-104 | a failure is at one argument: those before it decode, it does not, and nothing after it is read |
| `ArgumentCodec.TextLayout` | ActorModelServer/ActorModelServer/Actor.h:30-50 | a string lies on the wire as the low byte of its length, the high byte and its characters |
| `ArgumentCodec.EncodesInOrder` | ActorModelServer/ActorModelServer/Actor.h:66-104 | the arguments lie on the wire one after the other, the first one first: primitives as their bytes, strings as length and characters |
| `Deserializer.Cursor.ReadPrimitive` | ActorModelServer/ActorModelServer/Actor.h:12-28 | on the cursor in place; bytes passed over plus bytes remaining is constant |
| `Deserializer.Cursor.ReadString` | ActorModelServer/ActorModelServer/Actor.h:30-50 | 16-bit length, then that many bytes; a failure may leave the cursor past the length |
| `Deserializer.Cursor.DeserializeImpl` | ActorModelServer/ActorModelServer/Actor.h:66-104 | the recursion over none, one or more types reads what the parser on values reads and never leaves the buffer |
| `Deserializer.PacketHandlers.CreateMessageFromPacket` | ActorModelServer/ActorModelServer/Actor.h:230-283 | a packet that begins with the four bytes of an id, low byte first, becomes a message iff that id is registered, a call with given arguments exactly when their encoding follows, and a message that does nothing when none does; a shorter packet becomes none |
| `Deserializer.SentId` | ActorModelServer/ActorModelServer/Session.cpp:173 | the id read from a packet is the one whose four bytes, low byte first, begin it |
| `Deserializer.IdBack` | ActorModelServer/ActorModelServer/Actor.h:230-239 | the four bytes of an id make it with the low one first, and it is read back from them |
| `Deserializer.PacketHandlers.RegisterPacketHandler` | ActorModelServer/ActorModelServer/Actor.h:260-283 | a second handler for an id is refused and nothing changes |
| `TickerSteps.FiresAlone` | ActorModelServer/ActorModelServer/Ticker.cpp:35-60 | in any run a registered timer fires exactly as its own interval and the clock readings of the ticks say, whatever happens to other timers |
| `TickerSteps.ShowsLastReading` | ActorModelServer/ActorModelServer/Ticker.cpp:41 | after any run the clock of the ticker shows what its last tick read |
| `TickerSteps.WholeTick` | ActorModelServer/ActorModelServer/Ticker.cpp:35-60 | between ticks a tick can always run; it takes off the timers whose removal was asked for and fires exactly the others that are due at the reading, each set to its interval after it |
| `TickerSteps.FirstFireTwoIntervalsLater` | ActorModelServer/ActorModelServer/Ticker.cpp:82-96 | after a registration, whatever follows, nothing fires before two intervals past the clock it read |
| `TickerSteps.UnregisteredIsSilent` | ActorModelServer/ActorModelServer/Ticker.cpp:62-80 | after a removal request a timer fires no more, or once more if a tick is already past its removals |
| `TickerSteps.UnregisterSilences` | ActorModelServer/ActorModelServer/Ticker.cpp:98-105 | so it is after the call that asks for the removal |
| `TickerSteps.RegisterIsLost` | ActorModelServer/ActorModelServer/Ticker.cpp:62-105 | registering does not call off a removal on the list, also in the course of a tick: the timer is registered and never fires |
| `TickerSteps.RegistrationExactly` | ActorModelServer/ActorModelServer/Ticker.cpp:35-105 | with no later request for it a registered timer fires as its interval and the clock readings of the ticks say if its id is not on the removal list, and never if it is |
| `TickerSteps.RegistrationTakesEffect` | ActorModelServer/ActorModelServer/Ticker.cpp:62-105 | so, once a tick comes when it is due, it has fired iff its id was not on the list |
| `TickerRates.RateBounds` | ActorModelServer/ActorModelServer/Ticker.cpp:41-54 | n firings between one of them and a later tick, T apart, with gaps at most G: n * I <= T < I + n * (I + G - 1), hence at least floor(T / (I + G)) |
| `TickerRates.RoundedUp` | ActorModelServer/ActorModelServer/TimerEvent.cpp:10-13 | on even ticks a timer fires at every k-th, k gaps being the interval rounded up |
| `TickerRates.EveryNthExactly` | ActorModelServer/ActorModelServer/TimerEvent.cpp:10-13 | the i-th of those firings is i + 1 rounded periods after the last one, and there are floor(ticks / k) |
| `Ticker.Ticker.RegisterTimerEvent` | ActorModelServer/ActorModelServer/Ticker.cpp:82-96 | null is refused; otherwise the next firing is two intervals after the clock read and the event is in the map |
| `Ticker.Ticker.UnregisterTimerEvent` | ActorModelServer/ActorModelServer/Ticker.cpp:98-105 | the id is put on the list once |
| `Ticker.Ticker.BeginTick` | ActorModelServer/ActorModelServer/Ticker.cpp:41 | the clock shows the reading, and registrations may see it before the removals |
| `Ticker.Ticker.UnregisterTimerEventImpl` | ActorModelServer/ActorModelServer/Ticker.cpp:62-80 | makes exactly the removals asked for |
| `Ticker.Ticker.FireEvents` | ActorModelServer/ActorModelServer/Ticker.cpp:43-55 | exactly the due events fire, in ascending order of id, and are set to their interval after this tick; removals their handlers ask for are added in that order and wait for the next tick |
| `Ticker.AskedExactly` | ActorModelServer/ActorModelServer/Ticker.cpp:98-105 | the removal list then holds what it held and what the handlers of the events fired asked for |
| `Ticker.TimerEventCreator.Create` | ActorModelServer/ActorModelServer/TimerEvent.h:45-52 | a fresh event with the next id, after which the generator is one higher |
| `Ticker.TimerEvent.SetNextTick` | ActorModelServer/ActorModelServer/TimerEvent.cpp:10-13 | the next firing is counted from the tick that fires |

## Left out

- Winsock, IO completion ports, events, thread creation and the completion-key pool: posts, completions and wake-ups are steps whose outcome the environment chooses.
- The internals of `NetBuffer`, `CRingbuffer` and `CLockFreeQueue`, which are not part of this model: a decoder, a bounded byte queue and an atomic queue stand for them; the negative queue size that `DoSend` checks for does not arise.
- The receive buffer pair that `DoRecv` builds from the ring's two free parts, and a server ring that is full.
- Shutdown: `EraseAllSession` sets the user count to 0 for all shards, `ServerCore::isStop` is never set, `Ticker::Stop` clears its lists.
- One turn of the loop that drains the queue is one step; a `Dequeue` that fails after its test changes nothing. What a failed `Dequeue` of the fill loop leaves in its out-parameter is taken to be what was there; reading through a freed or unwritten place is not modelled.
- `recvStoredQueue`, which nothing fills.
- Buffers are named by their allocation, so each enqueued one is new; reuse of an address by the buffer pool is not modelled.
- The send that `OnActorCreated` may make on the accept thread is made by another thread of the step system; sends made before the accept thread's hold are not modelled.
- The decrement of `ioCount` to 0 and the queueing of the release key are one step of `SessionSteps`, so `releases` counts how often 0 was reached; `Registry` has them apart, as its environment may release at any time.
- SessionSpec.NothingWaitsUnposted: for calls that do not overlap and posts that succeed; for overlapping calls it is false, and `SessionProgress.StrandedInRun` is what holds.
- EndToEnd.ExecutedInStreamOrder: for receives that leave whole frames; for others it is false (`ServedStream.PartialFrameMisserved`), and `EndToEnd.ExecutedInServedOrder` is what holds.
- MediatorRuns.Agreement: where the id itself is rolled back only while active; otherwise it is false, and `MediatorRuns.SpokenAgainExactly` is what holds.
- MediatorRuns.DecidedOnce: under the same condition.
- Hooks that call back into their mediator, the actions stored in a participant, `lastUpdate` as an observable, and mediators that share the id generator.
- Mediator.MediatorBase.OnTimer: the order among transactions, and among the participants of one, is that of an unordered map; any order is allowed.
- ActorObject.Actor.ProcessMessage: handlers send to their own actor and may stop it; they do not throw.
- Mailbox draining for `NonNetworkActor` and `MediatorBase`, whose timers never call `ProcessMessage`.
- Deadlock freedom between the release-queue mutex and the session-map mutex.
- Ticker.Ticker.FireEvents: a handler may ask for removals; one that registers a timer would wait for the lock its own thread holds, and is not modelled.
- Registration writes the next firing outside the ticker's lock; here that write and the insertion are one step.
- Wrap-around of 64-bit and 16-bit ids, of `ioCount` and of clock values, and weak memory ordering: naturals, and steps in a total order.
- `TradeMediator`, players, NPCs, sectors and the client's `ActorManager`: empty hooks or plain map wrappers.
- Logging, console programs, option parsing and test support.
