# TVPP: a verified model

TVPP streams live media from peer to peer. Five parts of it share one idea: a bounded structure is
reused while the identifiers in it keep growing. This project models those parts in Dafny and proves
what they are for.

* **The chunk pipeline.** A chunk id is a pair of a cycle and a position in a ring of `B` slots; its linear
  index is `cycle * B + position` (`ChunkUniqueID.dfy`). `Pipeline.dfy` is a state machine over linear indices
  with one atomic step for each concurrent method of the client. `LapSafety.dfy` proves that slot `r mod B`
  never holds a chunk of another lap, `RequestLifetime.dfy` that the assumption behind it is earned by the
  timeouts of the request loop, and by how short a ring it is lost. `Exactness.dfy` goes beyond that invariant: it says of
  every state a client can get into whether its answers will stay right. Two cases come out of it: `PositionReset.dfy` for
  the bootstrap moving the request position, any number of times, and `LapsLost.dfy` for late answers to lapped
  requests, with concrete runs that go wrong. `RequestMessages.dfy` says what a client asks for, and that the
  answers to its messages are the awaited ones, `PlayerRuns.dfy` what the player is fed and `PlayerWaits.dfy` how long it
  waits for a missing chunk,
  `SourceRuns.dfy` the different invariant of the source, `Announcement.dfy` what an announced chunk map is worth,
  and `Swarm.dfy` puts sources, clients and an unreliable wire together: the player gets the bytes that were
  sampled for the chunk it is at.
  `MediaBuffer.dfy`, `Request.dfy` and `Client.dfy` are the imperative code, each method proved to take
  exactly its step of the machine.
* **The schedulers.** `RRMessageScheduler.dfy` (round robin: safety, conservation, fairness; `StringOrder.dfy` is
  the order of its keys) and `CDFMessageScheduler.dfy` (closest deadline first).
* **The wire codec.** `Message.dfy` (layouts of 8, 16 and 32 bit fields, integrity), `MessageData.dfy` (fields
  patched in place), `MessagePeerlist.dfy` (addresses) and `Bitmap.dfy` (chunk maps).
* **Partners.** `Partners.dfy` is the state machine of the three active lists with their cooldowns, `PartnerSteps.dfy`
  what each of its steps does to lists, cooldowns and peers,
  `PeerManager.dfy` the class that is proved to take its steps, `Ranking.dfy` the sorting both users share.
* **Topology and the token bucket.** `Topology.dfy` (one budgeted pass over a segment), `Renewal.dfy` (a whole
  renewal), `Channel.dfy` (the class); `Temporizable.dfy` and `LeakyBucket.dfy`.

Each class has a `View()`, or fields that are compared directly, and each of its methods ensures that the new
view is the specification step applied to the old one. The theorems are about the specification steps and
their runs, and so hold of the classes. Every concurrent method, and every iteration of the player loop, is
one atomic step.

Where the code and its comments or evident intention differ, the model follows the code:

* `ChunkUniqueID - ChunkUniqueID` subtracts cycles in `uint32`, so the branch that turns a negative difference
  into zero is never taken (`ChunkIds.MinusExact`, `ChunkIds.NegativeDifferenceNotSaturated`).
* `BitsetToBytes` promises to fill the last byte with zeros. It leaves the top bit of the octet before in it, and
  with seven leftover bits it loses them all (`Bitmaps.PaddingIsZero`, `Bitmaps.BitsComeBack`; for nine and seven set
  bits: `Bitmaps.NineBitsLeaveStaleBit`, `Bitmaps.SevenBitsAreLost`).
* Case 4 of the table in `CheckPeerList` removes a peer that has no Out membership; the code keeps it when it is
  in the Out-FREE list (`Partners.CaseFourNeedsNoOutFree`, `Partners.CaseFourKeepsOutFree`).
* `ConnectPeer` and `ConnectSpecial` find out which list they were given by comparing contents, not identity, so a
  connection to Out can restart the In time (`Partners.ConnectRestartsOwnTtl`, `Partners.OutConnectRestartsIn`).
* The class B pass stops before it reaches the first two peers of its segment (`Renewal.FirstTwoOfClassBStay`), and
  with a single ranked peer it can leave the vector (`Renewal.RenewalStaysInRange`, `Renewal.SoleClassBPeerLeavesVector`).
* A source whose ring is full answers a request for the chunk it is about to generate with the chunk one lap
  older (`SourceRuns.SourceServes`), and announces that slot as available (`Announcements.SourceAnnouncementIsKept`).
* A reset of the request position clears nothing. Ahead, it leaves stale chunks available, that of its first slot among
  them; behind, it lets chunks a lap behind the tip be stored again. Either way a partner can get another lap's chunk:
  `PositionResets.ResetIsSafeExactlyWhenClean` says exactly when, `LapsLost.ResetServesOldLap` and
  `LapsLost.BackwardResetServesOldLap` are runs. After a reset behind, answers for slots that remember a later chunk
  are dropped (`PositionResets.AnswerAfterReset`).
* A request that the request position has lapped can still be answered, and its chunk then takes the slot of a later
  lap (`LapsLost.LappedRequestServesOldLap`). `LapsLost.AnswerIsSafeExactlyWhenHarmless` says exactly when
  that ends in a wrong answer; it does not always (`LapsLost.LappedRequestMayBeHarmless`).
* The swap rule can put a silent peer out of an outgoing list before its time to live ends, without a cooldown
  (`Partners.SwappedOutBeforeItsTime`, `Partners.SilentPeerIsRefused`).
* A soft reset with an offset of a ring or more puts the player where another lap's chunk passes for its own, always
  (`PlayerRuns.HandsExactChunk`, `PlayerRuns.LongOffsetHandsWrongChunk`).
* In the give-up test of `FazPedidos` the special case for an attempt limit of -1 changes nothing: such a limit
  is reached at once anyway (`Pipeline.GivesUpAtLimit`).
* The refill of a token bucket is added in 32 bits, so a sum that wraps lowers the tokens
  (`TokenBucket.RefillSaturates`).

## Model

| member | source | states |
|---|---|---|
| ChunkIds.ChunkId.LinearOrder | src/common/ChunkUniqueID.cpp:66-100 | comparing cycles first and positions second is comparing linear indices |
| ChunkIds.ComparisonsAreLinear | src/common/ChunkUniqueID.cpp:56-100 | the comparisons are the order of the linear indices, each an if and only if |
| ChunkIds.ChunkUniqueID.IncID | src/common/ChunkUniqueID.cpp:46-54 | one step along the ring is plus one on the linear index, wrapping only when the 32-bit cycle does |
| ChunkIds.ChunkUniqueID.Set | src/common/ChunkUniqueID.cpp:25-29 | replaces cycle and position, keeps the ring size |
| ChunkIds.MinusInt | src/common/ChunkUniqueID.cpp:116-134 | the subtraction with its 16-bit intermediates computes `Back`, for every argument that is not negative |
| ChunkIds.BackExact | src/common/ChunkUniqueID.cpp:116-134 | within the stream, going back `k` is exact exactly when the number of cycles to subtract, borrow included, fits in 16 bits |
| ChunkIds.BackPastStart | src/common/ChunkUniqueID.cpp:116-134 | going back past the start lands in cycle 0 at the position counted backwards around the ring |
| ChunkIds.Minus | src/common/ChunkUniqueID.cpp:107-114 | the difference of ids with `uint32` cycles, for both signs |
| ChunkIds.MinusExact | src/common/ChunkUniqueID.cpp:107-134 | a difference is exact exactly when it is not negative; it also says exactly which negative ones get cycle 0 |
| ChunkIds.WindowIsOneLap | src/client/client.cpp:623-628 | the test "not later, and the difference has cycle 0" holds exactly for distances below one ring |
| ChunkIds.NegativeDifferenceNotSaturated | src/common/ChunkUniqueID.cpp:107-134 | a concrete negative difference that is almost 2^32 cycles instead of zero |
| LapSafety.ConnectedIsInLap | src/client/client.cpp:436-452 | a client that has just connected with an empty buffer satisfies the lap invariant |
| LapSafety.PlaceKeepsLap | src/client/client.cpp:1241-1258 | queueing a request, stepping on and clearing the next slot keeps the lap invariant |
| LapSafety.PassKeepsLap | src/client/client.cpp:1279-1352 | a pass over the request list keeps the lap invariant and the lead |
| LapSafety.AcceptKeepsLap | src/client/client.cpp:713-774 | storing an answer keeps the lap invariant exactly when the request position is less than a ring ahead of the answered chunk |
| LapSafety.ReceiveKeepsLap | src/client/client.cpp:652-774 | every data message, expected or not, keeps the lap invariant while the lead holds |
| LapSafety.FeedKeepsLap | src/client/client.cpp:1438-1584 | an iteration of the player loop keeps the lap invariant and the lead |
| LapSafety.RunKeepsLap | src/client/client.cpp:1241-1258 | in every run in which the request position never laps an outstanding request, each stored chunk is in its own slot, behind the request position, not beyond the tip, and while available less than a ring behind |
| LapSafety.ServesExactChunk | src/client/client.cpp:613-648 | each of the three replies exactly: no partnership to a stranger; to a partner data exactly when the chunk it asked for is held, and then that very chunk; else "chunk unavailable" |
| LapSafety.StrangersGetNothing | src/client/client.cpp:630-641 | in every state, after resets too, a stranger and only a stranger is told that there is no partnership |
| LapSafety.AnswerIsAccepted | src/client/client.cpp:713-774 | an answer from an asked partner is never taken for a duplicate or a late chunk: it is stored one hop and the tries further, its request is closed, and nothing else changes but the tip |
| LapSafety.UnaskedIsIgnored | src/client/client.cpp:652-774 | in every state: data that changes anything comes from a partner that was asked for that chunk |
| LapSafety.AcceptedExactlyWhenAwaited | src/client/client.cpp:652-774 | while the lead holds data is accepted if and only if it comes from a partner that was asked for that chunk |
| LapSafety.ClientRunServesExactChunks | src/client/client.cpp:613-648 | from connecting on: whatever happened before, an answer with data is exactly the requested chunk, and each reply is given exactly when it is due |
| LapSafety.HeldUntilLapped | src/client/client.cpp:613-648 | a chunk once held stays held exactly until the request position is a ring ahead of it, in every run in which the request position never laps an outstanding request |
| LapSafety.StepKeepsBehind | src/client/client.cpp:1241-1258 | every step, lapped requests or not, keeps outstanding requests behind the request position |
| RequestMessages.SentIsOutbox | src/client/client.cpp:1311-1350 | the messages of a pass are, in order, one for each request that was tried once more, each to the partner tried, for the chunk of that request, with the playback position |
| RequestMessages.PassOutcome | src/client/client.cpp:1279-1352 | which requests a pass keeps, in order, and what becomes of the time and the tries of each |
| RequestMessages.RequestRoundTrip | src/client/client.cpp:1311-1350 | the data a node answers to a message, coming from its addressee at any later time, closes the request and is stored as the chunk that was asked for, if the request is still outstanding; else it changes nothing |
| RequestMessages.EachChunkIsRequestedOnce | src/client/client.cpp:1241-1258 | over every run, whatever is answered, lost or lapped, exactly the chunks between the request positions are requested, each once and in order |
| RequestMessages.ClientRequestsFromFirst | src/client/client.cpp:1192-1206 | the same from connecting on: the chunks from the first one on |
| RequestMessages.PlacementClearsNextSlot | src/client/client.cpp:1241-1258 | a placement without a partner changes nothing; with one it makes exactly the chunks of the next slot unavailable |
| Exactness.RunKeepsPlaces | src/client/MediaBuffer.cpp:24-48 | in every run whatever, each stored chunk stays in its own slot and not beyond the tip |
| Exactness.ExactAnswers | src/client/client.cpp:613-648 | all answers with data are the requested chunks exactly when every available chunk is less than a ring behind the tip |
| Exactness.NotLate | src/client/client.cpp:665-666 | a chunk counts as a duplicate or late exactly when its slot remembers a later chunk or offers that very chunk |
| Exactness.ClientRunIsOrderly | src/client/client.cpp:1192-1206 | from connecting on, whatever is lapped or lost: requests in increasing order behind the request position, within their time to live, and every chunk in its slot |
| Exactness.StepKeepsSound | src/client/client.cpp:652-774 | every step in which no lapped request is answered keeps soundness: answers are exact, what may still be answered does no harm, and what will be requested again is not stored a ring behind the tip |
| Exactness.SoundRunIsExact | src/client/client.cpp:613-648 | from a sound state every answer with data is the requested chunk, in every run in which no lapped request is answered |
| Exactness.UnsoundGoesWrong | src/client/client.cpp:613-648 | from every other state there is such a run, given as a list of steps, that ends with an answer holding another chunk |
| Exactness.ExactForeverWhenSound | src/client/client.cpp:613-648 | the two together, for every state a client can get into: answers are and stay exact in all those runs if and only if the state is sound |
| Exactness.InvIsSound | src/client/client.cpp:1241-1258 | the lap invariant is sound whatever is outstanding: lapped requests do no harm until they are answered |
| PositionResets.RebaseKeepsLap | src/client/client.cpp:436-452 | a reset to any position keeps the lap invariant exactly when all that is stored, and the tip, lie behind the new position, and what is available less than a ring |
| PositionResets.ResetMovesBoth | src/client/client.cpp:436-452 | a reset drops the requests, moves requester and player to the new position, and leaves all else |
| PositionResets.CleanResetRunIsExact | src/client/client.cpp:613-648 | after a clean reset, ahead or behind, from any state with exact answers, every answer with data is the requested chunk, in every run in which no lapped request is answered |
| PositionResets.DirtyResetGoesWrong | src/client/client.cpp:436-452 | after every other reset there is such a run, given as a list of steps, that ends with an answer holding another chunk |
| PositionResets.ResetIsSafeExactlyWhenClean | src/client/client.cpp:436-452 | for every state, also one still catching up with an earlier reset, and every new position: answers are exact from the reset on in all those runs if and only if they were before and no stale chunk is left available and no chunk a ring behind the tip can be stored again |
| PositionResets.CleanResetsStayExact | src/client/client.cpp:436-452 | so any number of clean resets, ahead or behind, with any such runs in between, leaves the answers exact |
| PositionResets.FirstPlaceRestoresLap | src/client/client.cpp:1241-1258 | after a reset ahead the first placement restores the lap invariant exactly when no slot but the one it clears is stale |
| PositionResets.ShortResetIsClean | src/client/client.cpp:436-452 | a reset behind by less than a ring from the tip is always clean |
| PositionResets.PlayerAfterReset | src/client/client.cpp:1477-1489 | after a clean reset, and with an offset shorter than the ring, the player is handed the chunk at its own position, in all those runs |
| PositionResets.AnswerAfterReset | src/client/client.cpp:665-666 | in every run after a reset, made from any state, an awaited answer is dropped exactly when its slot remembers a later chunk or offers that very chunk |
| LapsLost.BackwardResetServesOldLap | src/client/client.cpp:443-446 | a concrete reset to chunk 0 after which a request for chunk 4 is answered with chunk 0 |
| LapsLost.AnswerIsSafeExactlyWhenHarmless | src/client/client.cpp:713-774 | the answer to any outstanding request, lapped or not, whatever else is outstanding, leaves all later answers exact if and only if its chunk is in the last ring before the request position, or in the last ring before the tip in the slot that the next placement clears (in a ring of two, in either), with no other answerable request a ring or more ahead of it in another slot |
| Pipeline.GivesUpAtLimit | src/client/client.cpp:1289-1293 | the give-up test is just "as many attempts as the limit", for every limit, -1 included |
| LapsLost.ResetServesOldLap | src/client/client.cpp:1241-1258 | a concrete run after a reset in which a request for chunk 21 is answered with chunk 5 |
| LapsLost.LappedRequestServesOldLap | src/client/client.cpp:713-774 | a concrete lapped request whose late answer makes a request for chunk 5 be answered with chunk 1 |
| LapsLost.LappedRequestMayBeHarmless | src/client/client.cpp:713-774 | a concrete lapped request whose answer breaks the lap invariant but no later answer |
| RequestLifetime.PassAgesRequest | src/client/client.cpp:1279-1352 | a pass makes a surviving request exactly one pass older, across time-outs and new attempts |
| RequestLifetime.StepKeepsSchedule | src/client/client.cpp:1192-1206 | between two passes at most one request is placed, so the request position stays within the age of each outstanding request |
| RequestLifetime.ScheduleHolds | src/client/client.cpp:1192-1206 | in every punctual run, whatever the ring, each outstanding request stays on schedule and ages with every pass |
| RequestLifetime.ScheduleGivesLead | src/client/client.cpp:1192-1206 | if each try finds a partner and the ring outlasts a request, the request position never laps an outstanding request |
| RequestLifetime.LapIsEarned | src/client/client.cpp:1192-1206 | the lap assumption and the lap invariant for every punctual run from connecting on, for `100 * max(1, limit) + 1 < B` |
| RequestLifetime.LapIsLost | src/client/client.cpp:1192-1206 | for every shorter ring there is a punctual run from connecting on, given as a list of steps, in which the request position laps an outstanding request |
| RequestLifetime.LapIsEarnedExactly | src/client/client.cpp:1192-1206 | the two together: all punctual runs keep the lead if and only if `100 * max(1, limit) + 1 < B` |
| RequestLifetime.RequestIsGone | src/client/client.cpp:1279-1352 | if each try finds a partner, a request is gone after at most `100 * max(1, limit) + 1` passes, for every limit and every ring |
| RequestLifetime.NoRequestTriesTooOften | src/client/client.cpp:1284-1308 | whatever the partners do, no request ever has more than `max(1, limit)` attempts |
| PlayerRuns.SoftResetWindow | src/client/client.cpp:1441-1468 | a soft reset puts the player `offset` behind the tip, and back within one ring exactly when the offset is shorter than the ring |
| PlayerRuns.SoftResetForward | src/client/client.cpp:1441-1468 | with a short offset the soft reset only moves the player forward, into the last lap |
| PlayerRuns.HandsExactChunk | src/client/client.cpp:1441-1489 | in any state with exact answers, resets included: a handed chunk is the chunk at the player position exactly when there was no soft reset or its computed position is less than a ring behind the tip; for offsets within the stream, exactly when the offset is shorter than the ring |
| PlayerRuns.ShortOffsetHandsExactChunk | src/client/client.cpp:1477-1489 | with an offset shorter than the ring it always is |
| PlayerRuns.SoundPlayerIsExact | src/client/client.cpp:1477-1489 | and so in every run from a sound state in which no lapped request is answered |
| PlayerRuns.LongOffsetHandsWrongChunk | src/client/client.cpp:1441-1489 | a concrete state in which an offset longer than the ring hands chunk 8 for chunk 4 |
| PlayerRuns.PlayerCounts | src/client/client.cpp:1471-1584 | between soft resets every chunk passed is either played or missed, and the counters agree with the position; whatever the partners do, after resets of the request position too |
| PlayerRuns.PlayerConservation | src/client/client.cpp:1471-1584 | and while no outstanding request is lapped, the i-th advance is chunk `player + i` itself; for every offset |
| PlayerRuns.PositionMovesOn | src/client/client.cpp:1438-1584 | over whole runs with short offsets, soft resets included, the position does not fall back nor pass the chunk after the tip; whatever the partners do, and with the tip ahead of the request position too |
| PlayerRuns.FedChunksIncrease | src/client/client.cpp:1438-1584 | over whole runs with short offsets, soft resets included, the fed chunks strictly increase while no outstanding request is lapped |
| PlayerRuns.HeldPositionMoves | src/client/client.cpp:1529-1584 | a position behind the tip is left within the patience computed from its waits, whatever happens in between and whether or not partners answer |
| PlayerRuns.PlayerMovesWithin301 | src/client/client.cpp:1529-1584 | at most 301 iterations at one position behind the tip |
| PlayerWaits.ReadyIsPlayed | src/client/client.cpp:1471-1519 | a chunk is handed over at the first iteration at which it is ready, exactly unless the player refuses it, with what that counts |
| PlayerWaits.MissingIsWaitedFor | src/client/client.cpp:1520-1584 | a missing chunk behind the tip is waited for as long as waits are left, and then missed |
| PlayerWaits.NothingIsMissedAtTip | src/client/client.cpp:1520-1584 | at or beyond the tip nothing is ever missed |
| PlayerWaits.SoftResetStartsOver | src/client/client.cpp:1441-1468 | a soft reset takes place exactly a ring or more behind the tip; it drops the requests, counts anew and restores the long wait, and changes nothing else but the position |
| PlayerWaits.MissedExactlyAfterWaits | src/client/client.cpp:1520-1584 | over runs: a chunk behind the tip that stays missing is missed at exactly the iteration after its waits, each of which leaves the position and the counters alone |
| PlayerWaits.MissedWasHeld | src/client/client.cpp:1520-1584 | conversely, in every run without a soft reset, a position that is missed was held before for exactly its waits |
| PlayerWaits.WaitsInNumbers | src/client/client.cpp:1523-1531 | the waits are 300 from a fresh wait and 5 after a miss, and one less than the patience |
| PlayerWaits.ConnectedPlayer | src/client/client.cpp:436-452 | a client that has just connected waits its full 300 iterations and has counted nothing |
| PlayerWaits.ClientPlaysFromFirst | src/client/client.cpp:1438-1584 | from connecting on until the first soft reset, the chunks from the first one on are played or missed |
| SourceRuns.GenerateKeepsLatest | src/client/client.cpp:1381-1398 | generating a chunk keeps: each slot has the latest chunk of its residue, available unless it is the newest |
| SourceRuns.SourceRunKeepsLatest | src/client/client.cpp:1381-1398 | the same over every source run, across all wrap-arounds |
| SourceRuns.SourceHolds | src/client/client.cpp:1381-1398 | chunk `q` is available exactly when it is one of the last `B` chunks but not the newest |
| SourceRuns.GenerateAllKeepsSampled | src/client/client.cpp:1381-1398 | every chunk of a source run is stored as it was sampled, lasting until the next one arrived |
| SourceRuns.SourceServes | src/client/client.cpp:623-648 | exactly which requests get data and which an error, and that the only wrong answer is the tip at a full ring |
| SourceRuns.SourceRunServes | src/client/client.cpp:623-648 | after `n` generated chunks a request below `n` gets that chunk, as it was sampled and with the time to the next one as its duration, or an error, never another chunk |
| Swarms.SwarmStaysGenuine | src/client/client.cpp:743-774 | in every run of a swarm with delayed, repeated, reordered or lost messages, each stored or sent chunk carries the bytes sampled for its index |
| Swarms.ProjectionIsRun | src/client/client.cpp:652-774 | what a client goes through inside a swarm is a run of its own state machine |
| Swarms.PlayerGetsTheStream | src/client/client.cpp:1477-1489 | in every swarm run in which the client's own lead holds, its player is handed the bytes sampled for the chunk at its position, and its partners the bytes of the chunk they asked for |
| Swarms.PunctualClientGetsTheStream | src/client/client.cpp:1192-1206 | the same for the player and the partners, with the lead replaced by the timeouts of the request loop |
| Announcements.MapArrives | src/client/client.cpp:1066-1073 | a chunk map that arrives with as many bits as the ring has slots is the map that was sent, through both conversions |
| Announcements.StepKeepsStored | src/client/MediaBuffer.cpp:85-93 | every step keeps: only stored chunks are available |
| Announcements.ClientAnnouncementIsKept | src/client/client.cpp:511-516 | whoever finds a client a candidate on its current announcement is answered with that very chunk |
| Announcements.ClientRunAnnouncementIsKept | src/client/client.cpp:511-516 | from connecting on, and however late the announcement is acted upon: such a candidate answers with that very chunk exactly until its request position is a ring ahead |
| Announcements.SourceAnnouncementIsKept | src/client/client.cpp:511-516 | so it is with a source, exactly but for its tip |
| Announcements.SourceRunAnnouncementIsKept | src/client/client.cpp:511-516 | from an empty source on, after any number of chunks: exactly but for its tip |
| MediaBuffers.CountAfterInsert | src/client/MediaBuffer.cpp:24-48 | the message count grows exactly when a free slot is filled |
| MediaBuffers.MediaBuffer.constructor | src/client/MediaBuffer.cpp:4-22 | starts with every slot empty and unavailable |
| MediaBuffers.MediaBuffer.Insert | src/client/MediaBuffer.cpp:24-48 | replaces exactly the slot of the message's position, in all mirror arrays, and keeps the count |
| MediaBuffers.MediaBuffer.SetAvailable | src/client/MediaBuffer.cpp:85-88 | changes exactly one availability bit |
| MediaBuffers.MediaBuffer.UnsetAvailable | src/client/MediaBuffer.cpp:90-93 | changes exactly one availability bit |
| MediaBuffers.MediaBuffer.Available | src/client/MediaBuffer.cpp:95-101 | a slot is available when its bit is set and it holds a message |
| MediaBuffers.MediaBuffer.GetID | src/client/MediaBuffer.cpp:50-53 | the cycle of the stored chunk |
| MediaBuffers.MediaBuffer.SetDuration | src/client/MediaBuffer.cpp:103-107 | changes the duration of one stored chunk, in the message and in its mirror |
| Requests.CandidateHasChunkInWindow | src/client/Request.cpp:55-76 | a name is a candidate exactly when a partner of that name announces the chunk and its tip is at or less than a ring past it |
| Requests.Request.SearchPeers | src/client/Request.cpp:55-76 | the rebuilt list is the candidates among the active partners |
| Requests.Request.CreateAttempt | src/client/Request.cpp:93-98 | appends one attempt |
| Clients.Client.constructor | src/client/client.cpp:436-452 | a fresh client is in the connected state of the machine |
| Clients.Client.ColocarNaListaDePedidos | src/client/client.cpp:1241-1258 | takes exactly the step `PlaceRequest`; it fails exactly when no partner has the chunk |
| Clients.CleanUpRequests | src/client/client.cpp:1284-1308 | removes the requests that gave up and restarts the timed-out ones, in order |
| Clients.SendRequests | src/client/client.cpp:1311-1350 | each started or restarted request asks a candidate, each request ages by the step, and exactly the requests that found one are sent, in order, with the playback position |
| Clients.Client.FazPedidos | src/client/client.cpp:1279-1352 | takes exactly the step `PassRequests` and hands over exactly the messages of that pass: one for each request tried once more, to the partner tried, for its chunk |
| Clients.Client.HandleDataMessage | src/client/client.cpp:652-774 | takes exactly the step `ReceiveData`; a sender that is no partner gets the error reply |
| Clients.Client.FindCorrespondentRequest | src/client/client.cpp:713-720 | the first outstanding request for the chunk, or none |
| Clients.Client.HandleRequestMessage | src/client/client.cpp:613-648 | gives exactly the reply `Serve` says, whose three cases `LapSafety.ServesExactChunk` and `LapSafety.StrangersGetNothing` pin down |
| Clients.Client.SoftResetPlayer | src/client/client.cpp:1441-1468 | takes exactly the step `SoftReset` |
| Clients.Client.FeedPlayerIteration | src/client/client.cpp:1438-1584 | takes exactly the step `FeedPlayer` and hands over the chunk that step says |
| Clients.Client.PlayOrWait | src/client/client.cpp:1471-1584 | the five outcomes of an iteration and their effects on positions, waits and counters; how long it waits is `PlayerWaits.MissedExactlyAfterWaits` |
| Clients.Client.GerarDadosIteration | src/client/client.cpp:1381-1398 | takes exactly the step `Generate` |
| StringOrder.NextIsNearer | src/common/Scheduler/RRMessageScheduler.cpp:53-60 | the next key in rotation is strictly nearer to every other key |
| StringOrder.LessIsLexicographic | src/common/Scheduler/RRMessageScheduler.cpp:53-60 | keys are ordered by the first character that differs, a prefix before what extends it |
| RoundRobin.PushKeepsInv | src/common/Scheduler/RRMessageScheduler.cpp:8-19 | key set and map agree, no queue is empty, and the pointer is the marker or a live key, after a push |
| RoundRobin.PopKeepsInv | src/common/Scheduler/RRMessageScheduler.cpp:21-82 | the same after a pop |
| RoundRobin.Conservation | src/common/Scheduler/RRMessageScheduler.cpp:8-82 | for each address, over every run: queued and pushed equals popped followed by still queued, in order |
| RoundRobin.SizeIsPushesMinusPops | src/common/Scheduler/RRMessageScheduler.cpp:84-91 | over every run the size is pushes minus successful pops |
| RoundRobin.PopFailsOnlyWhenEmpty | src/common/Scheduler/RRMessageScheduler.cpp:21-82 | `Pop` returns nothing exactly when the size is zero |
| RoundRobin.StepApproaches | src/common/Scheduler/RRMessageScheduler.cpp:50-71 | a pop that does not serve a pending address brings the pointer strictly nearer to it |
| RoundRobin.ServedWhenReached | src/common/Scheduler/RRMessageScheduler.cpp:50-71 | a pending address is served within as many pops as there are addresses between the pointer and it, plus one |
| RoundRobin.Fairness | src/common/Scheduler/RRMessageScheduler.cpp:21-82 | if at most `n` addresses are ever used, the oldest message of a pending one is delivered within `n` pops |
| RoundRobin.RRMessageScheduler.RotateKeyPointer | src/common/Scheduler/RRMessageScheduler.cpp:50-64 | the rotation loop runs exactly one step |
| RoundRobin.RRMessageScheduler.Push | src/common/Scheduler/RRMessageScheduler.cpp:8-19 | takes exactly the step `PushMessage` |
| RoundRobin.RRMessageScheduler.Pop | src/common/Scheduler/RRMessageScheduler.cpp:21-82 | takes exactly the step `PopMessage` |
| RoundRobin.RRMessageScheduler.GetSize | src/common/Scheduler/RRMessageScheduler.cpp:84-91 | the sum over all queues, in whatever order they are visited |
| ClosestDeadline.DistanceIsLead | src/common/Scheduler/CDFMessageScheduler.cpp:7-36 | the key of a request is its true lead over the playback position exactly when it is not behind it |
| ClosestDeadline.LateRequestIsDeferred | src/common/Scheduler/CDFMessageScheduler.cpp:7-36 | a concrete late request that is ranked behind one 1598 chunks early |
| ClosestDeadline.FrontIsNextRequest | src/common/Scheduler/CDFMessageScheduler.cpp:38-66 | the front of the multimap is always the request with the least distance, the oldest among equals, and the rest is the sorted rest |
| ClosestDeadline.CDFMessageScheduler.Push | src/common/Scheduler/CDFMessageScheduler.cpp:7-36 | a request joins the arrivals, a control message the FIFO queue |
| ClosestDeadline.CDFMessageScheduler.Pop | src/common/Scheduler/CDFMessageScheduler.cpp:38-66 | the oldest control message first, else the next request by deadline, else nothing |
| ClosestDeadline.CDFMessageScheduler.GetSize | src/common/Scheduler/CDFMessageScheduler.cpp:68-77 | the number of pending messages of both kinds |
| Messages.FieldsAreDisjoint | src/common/Messages/Message.cpp:185-203 | for every layout the fields keep their order, do not overlap and stay within the header |
| Messages.FieldOnTheWire | src/common/Messages/Message.cpp:185-206 | the low byte of a field comes first, and a negative number is its two's complement |
| Messages.WiderFieldsAreAligned | src/common/Messages/Message.cpp:185-206 | a concrete layout whose wider fields start at even offsets |
| Messages.RoundTrip | src/common/Messages/Message.cpp:110-137 | for every layout, splitting an assembled header gives each value modulo its field's width |
| Messages.AssembledFrame | src/common/Messages/Message.cpp:185-203 | assembling changes no byte outside the header's range |
| Messages.BaseView | src/client/client.cpp:365-372 | reading a derived message through its base layout gives the first values of the derived one |
| Messages.SealedIsIntact | src/common/Messages/Message.cpp:67-88 | after `SetIntegrity` the check passes exactly when the header covers the checksum field or the check passed before |
| Messages.ChecksumBytes | src/common/Messages/Message.cpp:55-76 | a concrete header with its checksum, byte by byte |
| Messages.SingleWordChangeIsDetected | src/common/Messages/Message.cpp:55-88 | any change to one covered word, the header-size byte kept, makes the check fail |
| Messages.TwoWordChange | src/common/Messages/Message.cpp:55-88 | a change to two covered words goes unnoticed exactly when the differences cancel modulo 2^16 |
| Messages.CodedByte | src/common/Messages/Message.cpp:90-108 | through the byte swaps, getting and setting a coded byte touches that byte only |
| Messages.Message.AssembleHeaderValues | src/common/Messages/Message.cpp:185-203 | the loop writes each value at its aligned offset and returns the header length |
| Messages.Message.SplitHeaderValues | src/common/Messages/Message.cpp:110-137 | the loop reads each value at the same offsets |
| Messages.Message.CalcChecksum | src/common/Messages/Message.cpp:55-65 | the sum of the covered words modulo 2^16 |
| Messages.Message.SetIntegrity | src/common/Messages/Message.cpp:67-75 | replaces the checksum field by the complement of the sum taken with the field cleared |
| Messages.Message.CheckIntegrity | src/common/Messages/Message.cpp:77-88 | true exactly when the covered words sum to all ones |
| Messages.Message.GetCodedByteValue | src/common/Messages/Message.cpp:90-96 | the byte at the address |
| Messages.Message.SetCodedByteValue | src/common/Messages/Message.cpp:98-108 | changes exactly the byte at the address |
| DataMessages.PatchHop | src/common/Messages/MessageData.cpp:43-46 | patching the hop byte changes exactly the decoded hop |
| DataMessages.PatchTries | src/common/Messages/MessageData.cpp:48-51 | patching the tries byte changes exactly the decoded tries |
| DataMessages.PatchDuration | src/common/Messages/MessageData.cpp:53-60 | patching the duration changes exactly the decoded duration |
| DataMessages.HeaderValuesFrame | src/common/Messages/MessageData.cpp:35-41 | the header values depend on the 16 bytes of the data header only |
| DataMessages.AssembledHasHeader | src/common/Messages/MessageData.cpp:3-9 | the message header in front of the data header: opcode, header size, body size, empty checksum |
| DataMessages.CycleRoundTrip | src/common/Messages/MessageData.cpp:11-21 | an unsigned cycle survives the trip through an `int` field |
| DataMessages.ForwardedChunk | src/client/client.cpp:743-753 | a chunk that is updated and sealed again passes the check, and all other fields and the body are what was received |
| DataMessages.MessageData.constructor | src/common/Messages/MessageData.cpp:3-9 | decoding a new message gives the values it was made from |
| DataMessages.MessageData.SetHop | src/common/Messages/MessageData.cpp:43-46 | in place, one byte |
| DataMessages.MessageData.SetTries | src/common/Messages/MessageData.cpp:48-51 | in place, one byte |
| DataMessages.MessageData.SetDuration | src/common/Messages/MessageData.cpp:53-60 | in place, the four bytes of the duration |
| DataMessages.MessageData.SetMedia | src/common/Messages/MessageData.cpp:62-65 | copies the media into the body and leaves the rest alone |
| DataMessages.MessageData.UpdateForForwarding | src/client/client.cpp:743-753 | the update before storing leaves a message that passes the check and differs in hop and tries only |
| PeerLists.ParseRender | src/common/Messages/MessagePeerlist.cpp:29-67 | reading back a rendered number gives the number |
| PeerLists.NumberText | src/common/Messages/MessagePeerlist.cpp:29-67 | decimal digits that fit 16 bits are a number, with a sign or without, and a minus negates modulo 2^16 |
| PeerLists.QuadRoundTrip | src/common/Messages/MessagePeerlist.cpp:56-67 | the shortening loop parses every canonical dotted quad into its four octets |
| PeerLists.AddressRoundTrip | src/common/Messages/MessagePeerlist.cpp:29-67 | parsing a rendered address gives the address, for all octets and 16-bit ports |
| PeerLists.AddressBytes | src/common/Messages/MessagePeerlist.cpp:29-67 | a stored address is its four octets and then its port, high byte first |
| PeerLists.AddressText | src/common/Messages/MessagePeerlist.cpp:45-54 | a concrete address as text |
| PeerLists.MessagePeerlist.AddPeer | src/common/Messages/MessagePeerlist.cpp:29-43 | adds exactly one address behind the earlier ones; past the declared count nothing changes; an address that does not parse adds nothing |
| PeerLists.MessagePeerlist.WriteIpStringToArray | src/common/Messages/MessagePeerlist.cpp:56-67 | writes the four octets and touches no other byte; fails exactly when a part does not parse |
| PeerLists.MessagePeerlist.GetPeer | src/common/Messages/MessagePeerlist.cpp:45-54 | renders the address stored at the index |
| PeerLists.AddThenRead | src/common/Messages/MessagePeerlist.cpp:29-54 | the i-th peer read is the i-th peer added |
| Bitmaps.UnpackPack | src/client/client.cpp:1104-1178 | unpacking packed bits gives the bits, for all sizes divisible by 8 |
| Bitmaps.PackUnpack | src/client/client.cpp:1104-1178 | packing unpacked bytes gives the bytes |
| Bitmaps.FirstBitIsLowest | src/client/client.cpp:1104-1154 | the first bit of an octet is its lowest, the last its highest |
| Bitmaps.UnpackPacked | src/client/client.cpp:1122-1154 | what every size comes back as, leftover bits included |
| Bitmaps.BitsComeBack | src/client/client.cpp:1122-1178 | all bits of a map come back exactly when no seven bits are left over or those seven are clear |
| Bitmaps.PaddingIsZero | src/client/client.cpp:1140-1154 | the last byte is filled with zeros exactly when the octet before it has a clear top bit |
| Bitmaps.SevenBitsAreLost | src/client/client.cpp:1122-1154 | a concrete map of seven set bits that comes back clear |
| Bitmaps.NineBitsLeaveStaleBit | src/client/client.cpp:1140-1154 | a concrete map of nine set bits whose last byte has its top bit set |
| Bitmaps.ByteToBitset | src/client/client.cpp:1104-1120 | the bits of the byte, without its leading zeros |
| Bitmaps.BytesToBitset | src/client/client.cpp:1156-1178 | the bits of all bytes in order |
| Bitmaps.BitsetToBytes | src/client/client.cpp:1122-1154 | fills the array with exactly `Packed`, the stale bit included |
| Partners.WorstOfIsWorst | src/client/PeerManager.cpp:142-182 | the scan finds the member with the least bandwidth, the first in key order among equals |
| Partners.SwapRemovesWorst | src/client/PeerManager.cpp:142-182 | a swap happens exactly for a newcomer with strictly more bandwidth, and replaces exactly the worst member |
| PartnerSteps.ConnectAdmits | src/client/PeerManager.cpp:108-182 | for all three lists: a peer in its cooldown is refused, a free place takes any other peer and says whether it is new, and a full list takes it if and only if it is outgoing, the swap rule is on and the peer announced more than the least member, which it replaces |
| PartnerSteps.ConnectTouchesLittle | src/client/PeerManager.cpp:108-182 | a connection changes nothing but the members of its list, the time to live of that peer and the swap rule; a refusal changes nothing |
| PartnerSteps.WorstIsLeast | src/client/PeerManager.cpp:142-182 | Out-FREE compares what peers announced for Out-FREE, Out what they announced for Out, unless both have the same members |
| PartnerSteps.FreeListComparesFree | src/client/PeerManager.cpp:142-182 | a concrete swap on Out-FREE for a peer that announced less for Out |
| PartnerSteps.ConnectRestartsTtl | src/client/PeerManager.cpp:119-133 | which time to live a new member gets back, on every list |
| PartnerSteps.MeetingUpdatesOnePeer | src/client/PeerManager.cpp:69-87 | a new peer starts with full times to live and nothing sent; of a known one only the announced sizes change |
| Partners.ConnectRestartsOwnTtl | src/client/PeerManager.cpp:108-139 | a connected peer has its own list's time to live restarted exactly when the members before the call, with the peer in the free place or in the worst member's, are not those of the In list; else its In time is |
| Partners.OutConnectRestartsIn | src/client/PeerManager.cpp:108-139 | a concrete peer whose connection to Out restarts its In time only |
| Partners.TrimIsTopK | src/client/PeerManager.cpp:29-67 | trimming keeps `min(k, size)` members that sent at least as much as every dropped one; a negative `k` changes nothing and a larger one only raises the limit |
| Partners.ResizeTouchesOneList | src/client/PeerManager.cpp:29-48 | resizing touches one list, and never the In list |
| Partners.DecisionTable | src/client/PeerManager.cpp:292-391 | on every state: a membership ends exactly when it expires, and an active peer is removed exactly when no membership is left |
| PartnerSteps.PassEffect | src/client/PeerManager.cpp:279-391 | what a pass does to each peer in each list: who is disconnected, who cools down, and for how long |
| PartnerSteps.PassAgesPeer | src/client/PeerManager.cpp:292-391 | what a pass does to what is known of a peer: it is forgotten exactly if it was in a list and is in none, and else ages by one in each of its lists and nowhere else |
| Partners.CaseFourNeedsNoOutFree | src/client/PeerManager.cpp:295-306 | case 4 of the table removes the peer exactly when no Out-FREE membership goes on |
| Partners.CaseFourKeepsOutFree | src/client/PeerManager.cpp:295-306 | a concrete case 4 in which the peer stays known |
| Partners.CheckKeepsInv | src/client/PeerManager.cpp:292-391 | expiry keeps the invariant, and every active peer stays known |
| Partners.StepKeepsInv | src/client/PeerManager.cpp:29-199 | every operation, the switching of the swap rule included, keeps: each list within its maximum and disjoint from its cooldown map, cooldowns in 1..5, active peers known |
| PartnerSteps.DropCoolsDown | src/client/PeerManager.cpp:184-199 | a disconnection takes the peer out, sets its cooldown to five and touches no other peer |
| PartnerSteps.DroppedPeerIsRefused | src/client/PeerManager.cpp:184-199 | a disconnected peer is refused through the fifth pass after it and not longer, whatever happens to others |
| Partners.SilentPeerFades | src/client/PeerManager.cpp:292-391 | on every list a peer silent since time to live `n`, and not swapped out, is in the list before pass `n`, cools down for four passes, and is out of both after, whatever happens to others |
| Partners.SwappedPeerIsOutside | src/client/PeerManager.cpp:142-182 | a silent peer that is swapped out stays out of the list and of its cooldown |
| Partners.SilentPeerIsGone | src/client/PeerManager.cpp:292-391 | on every list, swap rule on or off, a silent peer's time to live runs down with the passes, and at none left it is not in the list |
| Partners.SilentPeerIsRefused | src/client/PeerManager.cpp:108-113 | the two as callers see them: member before pass `n`, refused by `ConnectPeer` through pass `n + 3`, each if and only if it was not swapped out meanwhile |
| Partners.NoSwapsWithoutRule | src/client/client.cpp:272-279 | on the In list, and while the swap rule stays off, no peer is swapped out |
| Partners.SwappedOutBeforeItsTime | src/client/client.cpp:272-279 | a concrete peer that is swapped out before its time to live ends, as soon as the rule is on again |
| PeerManagers.PeerManager.AddPeer | src/client/PeerManager.cpp:69-87 | adds an unknown peer or updates the announced sizes of a known one |
| PeerManagers.PeerManager.ConnectPeer | src/client/PeerManager.cpp:108-139 | takes exactly the step `Connect`, whose effect on every list is `PartnerSteps.ConnectAdmits` |
| PeerManagers.PeerManager.ConnectSpecial | src/client/PeerManager.cpp:142-182 | takes exactly the step `ConnectSpecial` |
| PeerManagers.PeerManager.DisconnectPeer | src/client/PeerManager.cpp:184-199 | takes exactly the step `Disconnect` |
| PeerManagers.PeerManager.SetNewMMaxActivePeersOut | src/client/PeerManager.cpp:29-67 | takes exactly the step `Resize` for some ranking of the members |
| PeerManagers.PeerManager.SetRemoveWorsePartner | src/client/PeerManager.cpp:456-459 | switches the swap rule, nothing else |
| PeerManagers.PeerManager.CheckpeerActiveCooldown | src/client/PeerManager.cpp:279-290 | every cooldown runs down by one and the finished ones are dropped |
| PeerManagers.PeerManager.CheckPeerList | src/client/PeerManager.cpp:292-391 | takes exactly the step `Check` |
| Topology.MoveIsOneStep | src/common/Channel.cpp:77-133 | an altered peer is one step closer to the target class on the way other, base, target |
| Topology.GreedyHasCut | src/common/Channel.cpp:96-112 | the budgeted pass is greedy by rank: all peers before some cut moved, no other changed, and it stopped at the end or with the budget spent |
| Topology.GreedySavesSteps | src/common/Channel.cpp:96-112 | the number of altered peers is exactly the drop of the total distance to the target class |
| Topology.BackwardIsGreedy | src/common/Channel.cpp:114-129 | in range, the pass that walks down is the greedy pass over the reversed segment |
| Topology.AllIntoBase | src/common/Channel.cpp:89-95 | the pass without a budget puts exactly its segment into the base class |
| Topology.PassesConverge | src/common/Channel.cpp:84-133 | with any budget at all, passing over one fixed segment again and again brings it wholly into its target class within two passes per peer; a renewal ranks anew before each pass |
| Renewal.ForwardPass | src/common/Channel.cpp:96-112 | the class D pass within the whole ranking: which ranks moved, and that the count is at most the budget |
| Renewal.BackwardPass | src/common/Channel.cpp:114-129 | the class B pass within the whole ranking |
| Renewal.MiddlePass | src/common/Channel.cpp:89-95 | the class C pass within the whole ranking |
| Renewal.RenewalByRank | src/common/Channel.cpp:135-181 | the class of every peer after a renewal, rank by rank; the two greedy passes alter at most `n * percent / 100` peers each and stop early only when that is spent |
| Renewal.RenewalInNumbers | src/common/Channel.cpp:135-181 | the same in numbers: the places of every rank, with 15 and 45 percent and the three pairs of places |
| Renewal.RankCountsBetter | src/common/Channel.cpp:148-165 | the ranked peers are those with places and without a hit count, but for the server, and a peer's rank is the number of these that sent more, but for ties |
| Renewal.RenewalStaysInRange | src/common/Channel.cpp:114-129 | indexing stays inside the vector exactly unless a single ranked peer is left with budget; always below 100 percent |
| Renewal.SoleClassBPeerLeavesVector | src/common/Channel.cpp:114-129 | a concrete single peer in class B with 100 percent: the pass leaves the vector |
| Renewal.FirstTwoOfClassBStay | src/common/Channel.cpp:116-116 | the first two peers of the class B segment never move |
| Renewal.AtMostOneChange | src/common/Channel.cpp:135-181 | each peer changes class at most once, and only if it is ranked |
| Renewal.RenewKeepsTheRest | src/common/Channel.cpp:148-163 | the server, free riders and peers with a hit count keep their places; the server and the ranked peers lose their sent counters, no other peer does |
| Renewal.RenewalTouchesCompetitors | src/common/Channel.cpp:148-163 | field by field: a peer with a hit count or without places keeps everything, the server loses its counter only, every ranked peer loses its counter and keeps or gets the places of a class |
| Renewal.FirstRenewalClears | src/common/Channel.cpp:137-143 | the first renewal clears every counter and changes nothing else |
| Renewal.WaitingPeerIsNotRanked | src/common/Channel.cpp:152-158 | a concrete peer that sent most, with a hit count: it keeps everything |
| Channels.SortedIsOrder | src/common/Channel.cpp:165-165 | sorting the collected pairs orders exactly the ordinary peers by what they sent |
| Channels.Channel.ConvertePeerClasse | src/common/Channel.cpp:69-75 | sets the places of the class and remembers the former ones |
| Channels.Channel.NormalizeClasses | src/common/Channel.cpp:84-133 | the three loops compute exactly the three passes, and return the number of altered peers |
| Channels.Channel.CollectOrdinary | src/common/Channel.cpp:149-163 | collects the ordinary peers with what they sent and clears their counters and the server's |
| Channels.Channel.RenewOUTALL | src/common/Channel.cpp:135-183 | the first call clears the counters; every other is a renewal by some order of the ordinary peers |
| Timers.AlarmsTakeTheirPeriod | src/common/Temporizable.hpp:29-42 | under any run of updates the alarms take their period each out of the elapsed time |
| Timers.FirstAlarmIsOnTime | src/common/Temporizable.hpp:29-42 | under any updates the first alarm goes off with the update that completes the time left, and not before |
| Timers.EvenTicksRaiseExactly | src/common/Temporizable.hpp:29-42 | `k` ticks of length `d > 0` from a fresh timer of period `p > 0` raise exactly `floor(k / ceil(p / d))` alarms |
| Timers.TimersAreIndependent | src/common/Temporizable.hpp:29-42 | each timer is counted down on its own, and the update completes exactly when no timer goes off that has no name |
| Timers.Temporizable.UpdateTimer | src/common/Temporizable.hpp:29-42 | the loop computes exactly that update, with the alarms in order |
| TokenBucket.RefillSaturates | src/client/Temporizable/LeakyBucket.cpp:19-27 | a refill is a capped addition exactly when the 32-bit sum does not wrap, and never more than that |
| TokenBucket.RunKeepsInv | src/client/Temporizable/LeakyBucket.cpp:19-42 | in every run the tokens never exceed the bucket |
| TokenBucket.TokensComeFromRefills | src/client/Temporizable/LeakyBucket.cpp:19-52 | granted plus remaining tokens are at most the initial ones plus a refill for each alarm |
| TokenBucket.TokensAreExact | src/client/Temporizable/LeakyBucket.cpp:19-52 | the tokens left are exactly the least of what the start, or a full bucket at any point of the run, leaves after the refills and grants since; so a refusal takes nothing |
| TokenBucket.TimerSeesElapsed | src/client/Temporizable/LeakyBucket.cpp:44-52 | the alarms of a bucket's run are those of its timer under the elapsed times of the run |
| TokenBucket.WindowRateBound | src/client/Temporizable/LeakyBucket.cpp:19-52 | in every window of every run the granted amount is at most the bucket plus a refill for each alarm of the window |
| TokenBucket.WindowRateBoundInPeriods | src/client/Temporizable/LeakyBucket.cpp:19-52 | hence at most the bucket plus a refill for each started period of the window |
| TokenBucket.EvenRateBound | src/client/Temporizable/LeakyBucket.cpp:19-52 | with even ticks the number of refills in the bound is exact |
| TokenBucket.IdleBucketFills | src/client/Temporizable/LeakyBucket.cpp:19-27 | a bucket nobody takes from fills by its alarms up to its size, when the sums fit 32 bits |
| TokenBucket.LeakyBucket.IncToken | src/client/Temporizable/LeakyBucket.cpp:19-27 | adds in 32 bits and caps |
| TokenBucket.LeakyBucket.DecToken | src/client/Temporizable/LeakyBucket.cpp:29-42 | grants exactly when there are enough tokens; a refusal takes nothing |
| TokenBucket.LeakyBucket.UpdateTimer | src/common/Temporizable.hpp:29-42 | takes exactly the step `Elapse` |

## Left out

- Sockets, sessions, threads, mutexes, sleeping and the clock: methods are atomic, and time is loop passes or an integer parameter.
- Log files, console output, configuration, statistics and the bundled HTTP server.
- Delay, mean hop and rate smoothing, which are floating point and steer nothing that is modelled.
- LapSafety.RunKeepsLap: runs are bounded so that the 32-bit cycle does not wrap; what happens after 2^32 laps is not modelled.
- SourceRuns.SourceRunKeepsLatest: bounded in the same way, and for rings of at least two slots.
- RequestLifetime.LapIsEarned: assumes that each (re)try finds a partner; without one a request times out without an attempt and is never given up, and `LapsLost.LappedRequestServesOldLap` shows what then can happen.
- RequestLifetime.LapIsEarnedExactly: in the same way, and for a first chunk at least three laps before the 32-bit cycle ends.
- Topology.PassesConverge: one fixed segment; the ranking that changes between renewals, and the two peers the class B pass leaves out, are covered by `Renewal` for one renewal only.
- Partners.StepKeepsInv: the count-down after which the timer switches the swap rule on again is not modelled; it may be switched at any time.
- PlayerRuns.FedChunksIncrease: for soft-reset offsets shorter than the ring; a longer one can move the player back.
- PlayerRuns.HeldPositionMoves: in the same way, and for writes to the player that succeed.
- PlayerRuns.PlayerCounts: between two of the resets that statistics make of `chunksPlayed` and `chunksMissed` every ten pings (client.cpp:1011-1013); these resets are no event of the model.
- Exactness.ExactForeverWhenSound: for states and runs whose 32-bit cycle does not wrap, and for runs in which no lapped request is answered; what a lapped answer does is `LapsLost.AnswerIsSafeExactlyWhenHarmless`.
- PositionResets.ResetIsSafeExactlyWhenClean: in the same way.
- LapsLost.AnswerIsSafeExactlyWhenHarmless: for the first lapped answer, from the lap invariant; for later ones `Exactness.ExactForeverWhenSound` decides, applied to the state after the answer (`LapsLost.AcceptedIsOrderly`).
- ChunkIds.MinusInt: does not model negative operands, which no caller passes.
- The choice of a partner among the candidates (all strategies, including the shuffled ones) is an arbitrary parameter; the tournament and nearest-address strategies delete the caller's vector.
- The free-rider throttle of `SearchPeers` is a boolean of each partner.
- `oldRequestList` and the header-size array of the buffer, which only feed logs and statistics.
- The reset of the requester after ten seconds without a candidate, and its rebasing by the bootstrap, are modelled as one step on the state (`PositionResets.Rebase`), not in the class.
- RoundRobin.RRMessageScheduler.Push: requires an address other than `invalid`, which the code reserves as the marker of its pointer and never removes once used.
- ClosestDeadline.CDFMessageScheduler.Push: keeps the whole message as its payload; what the payload says beyond kind, chunk and playback position is not modelled.
- Messages.RoundTrip: for the field widths 8, 16 and 32 on a little-endian host, the only ones the code decodes.
- Messages.Message.SplitHeaderValues: in the same way.
- Messages.Message.AssembleHeaderValues: requires a total length below 256, which the 8-bit counter of the code needs.
- DataMessages.MessageData.UpdateForForwarding: does not model the sharing of one buffer between message wrappers, nor who frees it; inheritance from the message class is composition.
- PeerLists.MessagePeerlist.AddPeer: decimal text with an optional sign; the digit grouping of a locale is not modelled.
- PeerManagers.PeerManager.ConnectPeer: requires a known peer, as its callers ensure by adding the peer first.
- PeerManagers.PeerManager.ConnectSpecial: in the same way.
- Channels.Channel.RenewOUTALL: the class percentages and places are those set up for a dynamic topology; a channel without one has none and is not modelled.
- Announcements.ClientAnnouncementIsKept: for peers that announce their own map; the free-rider mode announces an empty one and the full-map mode a full one.
- The order in which `std::sort` leaves equals is open: results hold for every ranking.
- TokenBucket.TokensAreExact: for buckets whose refill fits 32 bits on top of the bucket size; `TokenBucket.RefillSaturates` is what happens else.
- PlayerWaits.MissedWasHeld: for writes to the player that succeed; a failed one starts the wait anew (`PlayerWaits.ReadyIsPlayed`).
- TokenBucket.LeakyBucket.DecToken: does not model the waiting of a refused caller for the next refill.
- TokenBucket.LeakyBucket.UpdateTimer: the refill is an integer parameter; the code computes it in floating point from the period.
- `Channel::SugestedClass`, `SelectPeerList`, the FIFO and random schedulers, plain getters and setters and the remaining message types are not part of this model.
