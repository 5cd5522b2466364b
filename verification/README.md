# qDHT: a verified model

qDHT is a content network whose nodes gossip signed announcements. Each node decides by a probability taken from a
quantum walk on the peer graph whether to forward an announcement, stores events in one of two event repositories,
catches up with its peers by delta exchange, keeps content in pieces, fetches missing pieces with a pool of workers,
and finds peers through a bootstrap cache and route announcements. This project models those parts in Dafny and proves
what they are for: bounds, soundness and progress over whole simulation runs, linear algebra of the propagation
series, that a normalised relational store refines a last-write-wins map, anti-entropy in a network with loss and
repetition, that storing and fetching content is the identity for every interleaving of the workers, and round trips
of framing.

## How the model is laid out

| file | models |
|---|---|
| `Propagator.dfy` | the note table with swap-removal (class `Propagator` and the function it refines) |
| `GossipModel.dfy`, `Simulation.dfy` | the simulation as a state machine on values, and its objects proved to take exactly those steps |
| `GossipLaws.dfy`, `GossipProgress.dfy`, `GossipSteps.dfy` | what every run of the simulation keeps, what every run brings about, and what each step does in terms of the state |
| `RealSums.dfy`, `Laplacian.dfy`, `Series.dfy`, `Paths.dfy`, `GraphState.dfy` | graph, Laplacian, truncated series |
| `Topology.dfy`, `Text.dfy` | preferential attachment; numbers and joined parts as text |
| `Events.dfy`, `Sorting.dfy`, `SqliteStore.dfy`, `EventStores.dfy` | the two event repositories; stable sorting |
| `SyncLog.dfy`, `DeltaSync.dfy`, `DeltaNetwork.dfy`, `Restart.dfy` | the event log, one exchange, networks of nodes, starting again from the event store |
| `Pieces.dfy`, `ContentStores.dfy`, `Replicas.dfy`, `FetchPool.dfy` | splitting, storing, selecting and fetching pieces |
| `Bootstrap.dfy` | the bootstrap cache |
| `Routes.dfy` | route announcements |
| `Framing.dfy` | newline framing |

An object whose methods change its fields is a class here. Its methods state their whole new state as a function of the
old one (`View()` is the object as a value), and the lemmas are about those functions and about runs of them.

## Decisions a reader should know

- Numbers. JavaScript numbers that are counts, times or indices are integers, those of the graph and of scores are
  reals: rounding, overflow, NaN and infinities are not modelled. `amplitudeSparse` compares `maxMagnitude * |coeff|`
  with 1e-10; the model compares the squares with 1e-20, which decides the same and needs no square root.
- Parameters. Signature checks, hashes, JSON text, identity normalisation, the clock and the forwarding probability are
  arbitrary functions or arguments. A theorem that needs more says so: an injective hash, an idempotent normalisation,
  ids that determine events, verified events with a non-empty pubkey. Random draws are a given list; generation that
  would draw further is reported as unfinished.
- Sorting. `Array.prototype.sort` and `ORDER BY` with the rowid are the stable sort of `Sorting.dfy`. The comparison in
  `selectPiecesToFetch` orders by reputation and index; it is modelled by the stable sort by reputation of the ascending
  indices, and `Replicas.RankedUnique` shows that no other result would satisfy the comparison.
- The tick. The source calls the fetch handler inside the tick loop; the handler touches neither the note table nor the
  queue of its own node, so the model returns the fetched notes in order and forwards them after the loop.
- Text keys. The cache key of a tick and the keys of route reports are strings here too, and are proved to tell apart
  what they are made of (`CacheKeySeparates`, `KeyInjective`). The log key of the sync manager is its parts;
  `LogKeysSeparate` shows when the source's text of them does the same.
- Ids that determine events. Theorems about exchanges take a function `truth` from ids to events, and those about the
  relational store ask that events with one key be one event (`KeysDetermine`): a signed id is a hash of the event.
- Inboxes. Messages are values, so the JSON copy made on enqueueing is the identity.
- Interleavings. A schedule is any list of workers; each event of a worker (taking the head of the queue, a completed
  fetch, returning) is atomic, as it is between two `await`s. `FetchContent` picks the next worker nondeterministically.
- The SQL store. Tables are relations with the keys of the schema; each statement is a function on them; a failed upsert
  is rolled back. `received` is the ghost history of all upserts, and what the store holds is proved to be a function of
  it. The by-hash fallback of `ContentStore.getEntryByHash` never finds a row that the lookup by key did not, because
  `put` writes the same value to both columns, and is not modelled.
- Chunks. Framing works on characters. A QUIC channel makes a new text decoder for every value it reads, which drops a
  byte order mark at the start of the value; the RPC splitter's `toString` keeps it.

## What turned out not to hold as one would wish

Each of these is stated with its exact condition, from which failing inputs can be read off; the less obvious inputs
are lemmas of their own.

- Announcement keys join publisher, qkey and hash with `|`. Two different announcements share a key if a part contains
  the separator (`SeparatorHidesAnnouncement`), or if the same content is published again with another ttl, url or size
  (`RepublishingHidesAnnouncement`), and catch-up then forgets the earlier one. Every published announcement is in the
  history if and only if no two different ones share a key (`HistoryCompleteIff`); without separators they share it
  exactly if they agree on its three parts (`PlainKeysDiffer`).
- Preferential attachment with m = 0 gives a connected graph only for n <= 2 (`BarabasiAlbert`).
- A delta request that reaches back to when the peer was last heard can miss an event (`LastSeenMisses`): the requester
  ends up with a movable event of the responder if and only if it held it before or the request reaches back to it
  (`ExchangeExact`). After a reconnect the request reaches back to 0 (`ReconnectReaches`).
- A log rebuilt from the relational store is not the log that was recorded: an event without an id, as every delta
  request and response is, comes back under a digest (`IdlessIsRenamed`). It holds the same events if and only if every
  log entry is of a known kind, has a non-empty id and only named tags (`RestartKeepsLog`); what it holds in any case is
  `RestartFromSqlite`, and what exchanges move is kept (`RestartKeepsSynced`). A log rebuilt from the in-memory
  repository does hold the same events (`RestartFromMemory`).
- An empty id is no id to the relational store but one to the in-memory repository (`EmptyIdDiffers`).
- With `maxPeers` 0 the bootstrap cache still holds one record; it never holds more than `maxPeers` if and only if
  `maxPeers` is at least 1 (`BoundHolds`).
- The one piece of empty content cannot be fetched over HTTP: its range is unsatisfiable (`HttpServesPieces`).
- Pieces fetched by a call that fails the hash check stay cached, so later calls for the same hash and number of pieces
  fail too, whatever the provider (`FailureSticks`).
- `ReplicaStore.isComplete` compares counts: with pieces 0 and 5 of two it answers yes (`StrayPieceCounts`). The answer
  means "every piece" unless pieces are missing and at least as many are held past the end (`CompleteMeansEvery`).
- The NAT estimate of a route announcement looks at all reports, not only at those about its subject
  (`OthersChangeEstimate`). It is the subject's own if and only if the other reports are harmless, estimate by estimate
  (`EstimateIsOwn`).
- Two route announcements with the same sequence and time are resolved by their order (`TiesAreOrdered`).
- A QUIC channel loses a byte order mark that comes to stand at the start of a value (`MarkIsLost`). Reading undoes
  writing however the stream is cut if and only if every payload is clean and holds no mark (`QuicReadUndoesWrite`), and
  the two decoders agree on a text however it is cut if and only if no mark is left in a frame or in the unfinished end
  (`DecodersAgree`).

## Model

| member | source | states |
|---|---|---|
| `Propagation.SweepPartitions` | src/core/propagation/propagator.ts:66-143 | a removal loop that swaps the last note into a freed place still meets every note once: kept and removed notes together are the input as a multiset, kept ones fail the test, removed ones pass it |
| `Propagation.SweepIsFilter` | src/core/propagation/propagator.ts:66-143 | that loop refines a filter, with multiplicities |
| `Propagation.SweepDistinct` | src/core/propagation/propagator.ts:112-143 | ids stay distinct, and no id is both kept and removed |
| `Propagation.SweepOrder` | src/core/propagation/propagator.ts:68-102 | the order in which notes are taken: first the first that passes, then those of the table with the last note in its place |
| `Propagation.MarkDomain` | src/core/propagation/propagator.ts:91-98 | the fetched map gains exactly the ids of the fetched notes, with the current round, and keeps every other entry |
| `Propagation.TickExact` | src/core/propagation/propagator.ts:66-102 | a note stays exactly if it is not older than a positive age limit and its probability, at its age in rounds (not below 0) from its source or else from the node itself, is at most the threshold; it is fetched exactly if that probability is above it, each once; fetched marks are permanent and carry the round; active and fetched ids stay disjoint |
| `Propagation.AddExact` | src/core/propagation/propagator.ts:39-64 | a fetched id changes nothing; a known one changes its source and keeps author and birth; a new one enters last with the given author and birth, and in a full table takes the place of the head; nothing else changes |
| `Propagation.AddToFull` | src/core/propagation/propagator.ts:51-63 | a new id that meets a full table takes the place of the head, and no other note is lost |
| `Propagation.Propagator.constructor` | src/core/propagation/propagator.ts:13-29 | an empty, well-formed table |
| `Propagation.Propagator.AddNote` | src/core/propagation/propagator.ts:39-64 | the array and index map step as the table function does, and the index map stays the exact inverse of the array |
| `Propagation.Propagator.RemoveNoteAt` | src/core/propagation/propagator.ts:127-143 | swap-with-last removal on the array, with exactly one id leaving the index map |
| `Propagation.Propagator.PruneExpired` | src/core/propagation/propagator.ts:112-125 | the pruning loop is one sweep; it keeps exactly the notes not older than a positive limit, and all if the limit is not positive |
| `Propagation.Propagator.RunTick` | src/core/propagation/propagator.ts:66-102 | the whole tick equals the table function, hits in order; which notes stay and which are fetched, with the comparisons of age and probability written out |
| `Propagation.Propagator.FetchReady` | src/core/propagation/propagator.ts:68-102 | the second loop is one sweep in order and marks what it takes: exactly the notes whose probability, recomputed, is above the threshold, and it leaves exactly the others |
| `Propagation.Propagator.Recall` | src/core/propagation/propagator.ts:72-89 | a cached probability is what recomputation would give, for every active note |
| `Propagation.Propagator.CacheKeySeparates` | src/core/propagation/propagator.ts:73-74 | the key string tells id, source and birth round apart, ids with colons included |
| `Propagation.Propagator.ActiveCount` | src/core/propagation/propagator.ts:104-106 | the number of notes, which is also the number of indexed ids |
| `GossipModel.Targets` | src/sim/runner/simulation.ts:167-172 | the neighbours a forwarding reaches are exactly those that exist, are online and bear another id |
| `GossipModel.First` | src/sim/runner/simulation.ts:84-92 | `find` by id: the first node with the id, or none has it |
| `GossipLaws.DeliverySound` | src/sim/runner/simulation.ts:65-77 | over every run: a node is recorded as delivered for a qkey only if an announcement with it came to that node along a path of graph neighbours, all of whose forwarders and the node itself tolerate the publisher, from a node that had it in its inbox at the start or that came back from an outage and was sent it from the history; every forwarding was made by such a node to its neighbours |
| `GossipLaws.StepKeepsProvenance` | src/sim/runner/simulation.ts:126-192 | each step of a round keeps that invariant |
| `GossipLaws.ForwardOnceAndBandwidth` | src/sim/runner/simulation.ts:79-120 | over every run: each (node, key) is forwarded at most once, the bandwidth summed over the rounds is the sum of the nodes' counters, and is at most the number of distinct keys times the sum of degrees |
| `GossipLaws.StepKeepsLedger` | src/sim/runner/simulation.ts:84-113 | each step keeps: a pending hit is fetched but not yet forwarded, and counters agree with the ledger of forwardings |
| `GossipLaws.StepKeepsLinks` | src/sim/node/sim-node.ts:62-101 | each step keeps: a node and its inbox agree on being online, an offline node knows since when, every active note has its announcement stored |
| `GossipLaws.FetchedIsForwarded` | src/sim/runner/simulation.ts:151-181 | between rounds the keys a node has forwarded are exactly the keys it ever fetched: no fetched note is lost |
| `GossipLaws.DeliveredForever` | src/sim/runner/metrics.ts:62-69 | a recorded delivery is never taken back by later rounds |
| `GossipLaws.ReturnIsCaughtUp` | src/sim/runner/simulation.ts:91-113 | a node taken down by churn that comes back in round r has every announcement of the history by a tolerated publisher recorded as delivered by the end of round r, and ever after |
| `GossipLaws.RoundCatchesUp` | src/sim/runner/simulation.ts:84-192 | the same for one round from any state that keeps the invariants |
| `GossipLaws.HistoryIsLast` | src/sim/runner/simulation.ts:65-68 | the history holds, once per key, the announcement last published under it |
| `GossipLaws.SeparatorHidesAnnouncement` | src/sim/runner/simulation.ts:27-31 | two different announcements with one key: the earlier one is forgotten |
| `GossipLaws.PlainKeysDiffer` | src/sim/runner/simulation.ts:27-31 | without separators in publisher and qkey two announcements share a key exactly if they agree on publisher, qkey and hash |
| `GossipLaws.RepublishingHidesAnnouncement` | src/sim/runner/simulation.ts:27-31 | publishing the same content again with other tags hides the earlier announcement |
| `GossipLaws.HistoryCompleteIff` | src/sim/runner/simulation.ts:65-68 | every published announcement is in the history if and only if no two different published ones share a key |
| `GossipLaws.PublishingKeepsFresh` | src/sim/runner/simulation.ts:65-77 | publishing before a run counts no bandwidth and fills the history |
| `GossipLaws.PublishedIsCaughtUp` | src/sim/runner/simulation.ts:65-113 | end to end: what was published before a run, and not replaced under its key, is delivered to every returning node that tolerates the publisher |
| `GossipProgress.RoundForwards` | src/sim/runner/simulation.ts:99-181 | progress of a round: of the table of an online node, once its inbox is handled, exactly the notes within the age limit whose probability is above the threshold are forwarded in this round, to exactly the neighbours then online with another id; exactly those within the limit and not above the threshold are left; an offline node forwards nothing |
| `GossipProgress.RunReaches` | src/sim/runner/simulation.ts:167-178 | over every run: every forwarding went to exactly the neighbours of its node that were online in its round and bear another id |
| `GossipProgress.TargetsHear` | src/sim/runner/simulation.ts:99-178 | over every run: a forwarding is recorded as delivered by the end of the next round at every target that is online then and tolerates the publisher |
| `GossipProgress.EagerRound` | src/sim/runner/simulation.ts:99-181 | a node that is online in a round, has room, and whose probability for a new note of the publisher is above the threshold from every source, has forwarded by the end of the round what it was told before |
| `GossipProgress.Floods` | src/sim/runner/simulation.ts:79-181 | over every run: along a path of such nodes, online throughout, an announcement that the first was told of is delivered to the d-th by the end of round d |
| `GossipProgress.PublishedFloods` | src/sim/runner/simulation.ts:65-181 | end to end: an announcement published before a run is delivered to the d-th node of every such path from its publisher's node, or from the first node, by the end of round d |
| `GossipSteps.SwitchExact` | src/sim/runner/simulation.ts:84-97 | after the churn of a round a node is online exactly if the schedule brings it online in this round, or it was online and the schedule does not take it offline |
| `GossipSteps.ComesBackExact` | src/sim/runner/simulation.ts:84-97 | a node comes back in a round exactly if it was offline or goes offline in it, and is to come online in it |
| `GossipSteps.CatchUpExact` | src/sim/runner/simulation.ts:183-192 | a node that comes online finds the history behind what it had, each announcement once, in order and as sent by its publisher; one that was online finds nothing more |
| `GossipSteps.ProcessExact` | src/sim/runner/simulation.ts:126-149 | a message that is no announcement, has no qkey or comes from a publisher below -0.5 changes nothing; any other is recorded as delivered here and nowhere else, and if it has a hash is stored under its key and noted with its publisher, its sender and this round |
| `GossipSteps.ForwardExact` | src/sim/runner/simulation.ts:151-181 | forwarding a note: if its announcement is stored, complete and tolerated, every online neighbour with another id gets it once, last and from this node, which counts one sending each and drops it; otherwise nothing happens |
| `GossipSteps.PublishExact` | src/sim/runner/simulation.ts:65-77 | publishing reaches the inbox of the first node with the publisher's id, or of the first node if none has it, as coming from that node, and no other |
| `GossipSteps.HistoryExact` | src/sim/runner/simulation.ts:67-68 | a new key comes last in the history, a known one keeps its place and takes the new announcement |
| `GossipSteps.RoundBandwidth` | src/sim/runner/metrics.ts:17-38 | a round is recorded under its number with the announcements sent in it, and no other round changes |
| `Simulation.Inbox.SetOnline` | src/sim/node/inbox.ts:10-12 | only the flag changes; queued messages stay |
| `Simulation.Inbox.Put` | src/sim/node/inbox.ts:14-27 | an online inbox appends, an offline one drops the message |
| `Simulation.Inbox.Drain` | src/sim/node/inbox.ts:29-33 | all messages in order, leaving none |
| `Simulation.ChurnSchedule.Schedule` | src/sim/runner/churn.ts:10-26 | both indexes gain the node in the given rounds and no other |
| `Simulation.MetricsCollector.StartTick` | src/sim/runner/metrics.ts:17-25 | a new tick counts from zero |
| `Simulation.MetricsCollector.EndTick` | src/sim/runner/metrics.ts:27-32 | the open tick is stored under its round, if there is one |
| `Simulation.MetricsCollector.RecordAnnouncementSent` | src/sim/runner/metrics.ts:34-38 | counts only while a tick is open |
| `Simulation.MetricsCollector.RecordDelivered` | src/sim/runner/metrics.ts:62-69 | adds the node to the key's set and touches no other key |
| `Simulation.SimNode.constructor` | src/sim/node/sim-node.ts:46-56 | a blank online node |
| `Simulation.SimNode.SetOnline` | src/sim/node/sim-node.ts:62-73 | no change when already so; otherwise node and inbox switch together and going down remembers the round |
| `Simulation.SimNode.ReceiveAnnouncement` | src/sim/node/sim-node.ts:75-89 | incomplete announcements change nothing; complete ones are counted, stored and handed to the note table; the answer tells which it was |
| `Simulation.SimNode.CatchUp` | src/sim/runner/simulation.ts:183-192 | a node that was offline gets the history in order and forgets since when; another gets nothing |
| `Simulation.SimNode.RemoveAnnouncement` | src/sim/node/sim-node.ts:99-101 | drops one stored announcement |
| `Simulation.SimNode.Tick` | src/sim/node/sim-node.ts:91-93 | the node's note table ticks, nothing else changes |
| `Simulation.BuildNodes` | src/sim/runner/simulation.ts:48-51 | one blank node per id, no objects shared between nodes |
| `Simulation.Simulation.constructor` | src/sim/runner/simulation.ts:42-59 | an initial state that satisfies the model's |
| `Simulation.Simulation.FindNode` | src/sim/runner/simulation.ts:84-92 | the first node with the id |
| `Simulation.Simulation.PublishAnnouncement` | src/sim/runner/simulation.ts:65-77 | history, inbox of the publisher's node or of the first one, and counter step as in the model; the announcement is in the history under the key returned |
| `Simulation.Simulation.ProcessNext` | src/sim/runner/simulation.ts:126-149 | handling one message is the model's step |
| `Simulation.Simulation.SendToNeighbours` | src/sim/runner/simulation.ts:167-178 | the loop reaches exactly the model's targets and counts one send for each |
| `Simulation.Simulation.ForwardFetched` | src/sim/runner/simulation.ts:151-181 | forwarding one fetched note is the model's step |
| `Simulation.Simulation.StepOneNode` | src/sim/runner/simulation.ts:99-113 | draining, processing, ticking and forwarding of one node is the model's turn, of which `RoundForwards`, `ProcessExact` and `ForwardExact` say what it brings about |
| `Simulation.Simulation.SwitchOff` | src/sim/runner/simulation.ts:84-89 | nodes going offline, as in the model |
| `Simulation.Simulation.SwitchOn` | src/sim/runner/simulation.ts:91-97 | nodes coming online and caught up, as in the model |
| `Simulation.Simulation.RunRound` | src/sim/runner/simulation.ts:80-119 | one round of the objects is one round of the model, in which exactly the due notes of online nodes are forwarded (`RoundForwards`) |
| `Simulation.Simulation.Run` | src/sim/runner/simulation.ts:79-120 | the whole run of the objects is the model's run, so every law above holds of them: bounds, soundness, and the progress of `TargetsHear` and `PublishedFloods` |
| `Laplacian.ApplyLaplacianSparse` | src/core/graph/laplacian.ts:37-56 | the nested loops compute the graph Laplacian of the real and the imaginary parts |
| `Laplacian.SparseRow` | src/core/graph/laplacian.ts:41-53 | one entry, whatever the order in which the neighbour set is met |
| `Laplacian.BuildLaplacian` | src/core/graph/laplacian.ts:6-18 | every cell of the dense matrix: degree on the diagonal, -1 for neighbours, 0 elsewhere |
| `Laplacian.DenseIsSparse` | src/core/graph/laplacian.ts:6-56 | on simple graphs the dense matrix and the sparse operator are the same linear map |
| `Laplacian.SelfAdjoint` | src/core/graph/laplacian.ts:37-56 | the operator is self-adjoint on simple graphs |
| `Laplacian.PositiveSemidefinite` | src/core/graph/laplacian.ts:37-56 | its quadratic form is half the sum of squared differences over ordered neighbour pairs, hence never negative |
| `Laplacian.LapTotal` | src/core/graph/laplacian.ts:37-56 | its output always sums to zero |
| `OperatorSeries.CoeffStep` | src/core/graph/graph-state.ts:140-144 | the coefficient update yields (-it)^k / k! |
| `OperatorSeries.SeriesRecurrence` | src/core/graph/graph-state.ts:134-156 | the terms, as differences of the partial sums, satisfy k times term k = -it times the Laplacian of term k - 1 |
| `OperatorSeries.SeriesTotal` | src/core/graph/graph-state.ts:124-164 | after any number of terms the amplitudes over all nodes sum to exactly 1 + 0i |
| `OperatorSeries.SeriesAtZero` | src/core/graph/graph-state.ts:125-127 | at t = 0 every cut of the series is what the shortcut returns |
| `OperatorSeries.SeriesSymmetric` | src/core/graph/graph-state.ts:124-164 | with equal term counts amplitudes are symmetric in source and target |
| `OperatorSeries.PowerSymmetric` | src/core/graph/graph-state.ts:137-138 | every power of the Laplacian is a symmetric matrix |
| `OperatorSeries.PowerLocal` | src/core/graph/graph-state.ts:137-138 | after k applications the term is zero at every node more than k hops from the source |
| `OperatorSeries.SeriesLocal` | src/core/graph/graph-state.ts:124-164 | so is the k-term series |
| `OperatorSeries.PowerGrowth` | src/core/graph/graph-state.ts:137-153 | entries of the k-th term are at most (2 maxDegree)^k |
| `GraphStates.GraphState.SetNodes` | src/core/graph/graph-state.ts:12-18 | the ids in order, each indexed by its last position, no edges |
| `GraphStates.GraphState.AddNode` | src/core/graph/graph-state.ts:20-33 | a known id keeps its index; a new one is appended without neighbours; no edge changes |
| `GraphStates.GraphState.SetConnection` | src/core/graph/graph-state.ts:35-57 | exactly the one undirected edge changes, unknown ids and loops are ignored, and the graph stays simple and symmetric |
| `GraphStates.GraphState.AddTerm` | src/core/graph/graph-state.ts:146-156 | the inner loop adds coefficient times term to every entry and finds the largest magnitude |
| `GraphStates.GraphState.NextTerm` | src/core/graph/graph-state.ts:137-156 | one turn of the loop goes from the partial sum of k - 1 terms to that of k |
| `GraphStates.GraphState.AmplitudeSparse` | src/core/graph/graph-state.ts:124-164 | the loop returns the unit vector at time 0, and otherwise the partial sum at the first k for which no entry moved by 1e-10 or more from the one before, or at 18 |
| `GraphStates.LastTerm` | src/core/graph/graph-state.ts:129-161 | the stopping index: the first k from which no entry of the partial sums moved by 1e-10 or more, never past 18 |
| `GraphStates.StopsExactly` | src/core/graph/graph-state.ts:146-160 | the stopping test on largest entry and coefficient holds exactly if for every node the squared distance of the partial sums of k and k - 1 terms is below 1e-20 |
| `GraphStates.AmplitudeStops` | src/core/graph/graph-state.ts:124-164 | the amplitude on these values: the sum at the first cut that has settled, or at cut 18 |
| `GraphStates.GraphState.GetAmplitude` | src/core/graph/graph-state.ts:78-88 | zero for indices out of range, otherwise the sum at the first cut that has settled, or at cut 18 |
| `GraphStates.AmplitudesTotal` | src/core/graph/graph-state.ts:124-164 | what the loop returns sums to exactly 1 + 0i over the nodes, for every time and stopping point |
| `GraphStates.AmplitudeLocal` | src/core/graph/graph-state.ts:124-164 | it is exactly zero for nodes not joined to the source |
| `GraphStates.AmplitudeSymmetric` | src/core/graph/graph-state.ts:124-164 | it is symmetric whenever both directions stop at the same term |
| `Topology.Pick` | src/core/graph/topology.ts:69-80 | each node has as many positions as its degree, and one if that is zero: a draw picks the node in whose stretch the draw times all positions falls |
| `Topology.OwnerUnique` | src/core/graph/topology.ts:73-80 | no position falls to two targets |
| `Topology.ChosenIsPicked` | src/core/graph/topology.ts:69-80 | a pick from the side array is a pick by the degrees of the graph it tracks |
| `Topology.Handshake` | src/core/graph/topology.ts:69-72 | the degrees of a simple graph sum to twice its edges |
| `Topology.PickIsPreferential` | src/core/graph/topology.ts:69-80 | where no node is without edges a draw falls to node j exactly if draw times twice the number of edges lies in the stretch of length degree(j) behind the sum of the degrees before j |
| `Topology.SeedClique` | src/core/graph/topology.ts:55-62 | all pairs of the seed are joined, degrees are true, and the edges number as in a clique |
| `Topology.CliqueRowsClosed` | src/core/graph/topology.ts:56-62 | the clique's edge count in closed form |
| `Topology.ChooseTargets` | src/core/graph/topology.ts:68-81 | the loop ends with the wanted number of different earlier nodes, exactly those its draws fall to, the last draw falling to none of the others, or runs out of draws |
| `Topology.Attach` | src/core/graph/topology.ts:83-87 | exactly the chosen edges are added and the side array stays equal to the degrees |
| `Topology.Grow` | src/core/graph/topology.ts:64-88 | one node is attached to exactly the nodes that its draws fall to in the graph before, and stays joined to the hub; without enough draws nothing changes |
| `Topology.BarabasiAlbert` | src/core/graph/topology.ts:39-91 | for all draws: a simple graph, degrees exact throughout, all pairs of the seed joined, every added node with exactly the earlier neighbours that its own stretch of the draws falls to by the degrees of that moment, the stretches following one another without a gap and none longer than needed, unfinished exactly if the rest of the draws falls to too few nodes; s(s-1)/2 + (n-s)m edges for s = min(n, max(2, m+1)), and connected exactly if m >= 1 or n <= 2 |
| `Topology.SeedSize` | src/core/graph/topology.ts:55-55 | the smaller of n and the larger of 2 and m + 1 |
| `Topology.DrawsDetermine` | src/core/graph/topology.ts:39-91 | these statements leave one result: the same draws make the same graph and use up the same stretches |
| `Text.DecimalInjective` | src/core/graph/topology.ts:50-50 | node names made from different indices differ |
| `Text.DecimalValue` | src/core/graph/topology.ts:50-50 | the text of an index means that number, without leading zeros |
| `SqliteStore.NostrSqliteStore.constructor` | src/core/nostr/sqlite-store.ts:67-131 | empty, sound tables for a new file |
| `SqliteStore.NostrSqliteStore.Reopen` | src/core/nostr/sqlite-store.ts:67-131 | opening a file that another store has left changes nothing in it |
| `SqliteStore.NostrSqliteStore.Upsert` | src/core/nostr/sqlite-store.ts:188-239 | an event of one of the twelve kinds replaces whatever its key held and nothing else, keys and foreign keys stay sound, the tables hold exactly its named tags and the identities its content names; another kind fails and leaves every table as it was; what is held is always the function `WriteAll` of everything received |
| `SqliteStore.NostrSqliteStore.WriteEvent` | src/core/nostr/sqlite-store.ts:195-233 | the statements from the event's row on: afterwards the tables represent the other events and this one, every one with its references |
| `SqliteStore.NostrSqliteStore.WriteRefs` | src/core/nostr/sqlite-store.ts:206-215 | exactly the roles and identities the content names end up stored under the event's key, those of other keys stay, no event is disturbed |
| `SqliteStore.NostrSqliteStore.WriteTags` | src/core/nostr/sqlite-store.ts:216-233 | the loop stores exactly the values of the named tags of the event and leaves the references alone |
| `SqliteStore.ReplaceEventSound` | src/core/nostr/sqlite-store.ts:81-164 | replacing an event row with its cascades keeps every key unique and every foreign key satisfied |
| `SqliteStore.NostrSqliteStore.ReadTags` | src/core/nostr/sqlite-store.ts:257-275 | the grids hold exactly the stored cells of the wanted events, in whatever order rows come |
| `SqliteStore.ReadGivesTags` | src/core/nostr/sqlite-store.ts:259-290 | a grid with holes read back gives the event's named tags in order |
| `SqliteStore.NostrSqliteStore.ReadRows` | src/core/nostr/sqlite-store.ts:257-290 | rebuilds each event with its pubkey and its tags in order, dropping only nameless tags |
| `SqliteStore.NostrSqliteStore.LoadAll` | src/core/nostr/sqlite-store.ts:241-243 | every event held after all upserts so far, rebuilt; of two loaded events the earlier one has the lower `created_at`, or the same and the earlier last write |
| `SqliteStore.NostrSqliteStore.LoadSince` | src/core/nostr/sqlite-store.ts:245-247 | of those exactly the ones with `created_at` at least the given time, in the same order |
| `SqliteStore.LoadedByTime` | src/core/nostr/sqlite-store.ts:177-177 | for every history of upserts the loaded events are in order of `created_at`, and among equal ones in the order of the last accepted writes of their keys |
| `SqliteStore.HeldByWrite` | src/core/nostr/sqlite-store.ts:152-155 | the rows are in the order of the last accepted writes |
| `SqliteStore.LastIndexIs` | src/core/nostr/sqlite-store.ts:36-49 | the position of the last write of a key, in terms of the events: it has the key, and no accepted event behind it has |
| `SqliteStore.NormalizeExact` | src/core/nostr/sqlite-store.ts:216-233 | what storing does to an event: exactly the tags with a non-empty name stay, in their order, and nothing else changes |
| `SqliteStore.RefsExact` | src/core/nostr/sqlite-store.ts:292-330 | read back through the identities, an event refers to an identity in a role exactly if its content names it so: subject and observer of kind 30800, route identity of 30801, publisher of 10804 |
| `EventStores.MemoryEventRepository.constructor` | src/core/storage/memory-node-storage.ts:86-87 | an empty repository |
| `EventStores.MemoryEventRepository.Upsert` | src/core/storage/memory-node-storage.ts:89-101 | first write wins, in insertion order; the entries are always the function `KeepAll` of everything received |
| `EventStores.MemoryEventRepository.LoadAll` | src/core/storage/memory-node-storage.ts:103-105 | the held events; of two loaded events the earlier one has the lower `created_at`, or the same and was inserted first |
| `EventStores.MemoryEventRepository.LoadSince` | src/core/storage/memory-node-storage.ts:107-109 | of those exactly the ones with `created_at` at least the given time, in the same order |
| `EventStores.KeptByTime` | src/core/storage/memory-node-storage.ts:103-105 | for every history of upserts the loaded events are in order of `created_at`, and among equal ones in the order of the first writes of their keys |
| `EventStores.FirstIndexIs` | src/core/storage/memory-node-storage.ts:89-101 | the position of the first write of a key, in terms of the events: it has the key, and no event before it has |
| `EventStores.LastWriteWins` | src/core/nostr/sqlite-store.ts:36-49 | after any sequence of upserts an event is held exactly if it is the last accepted write of its key (its id, or a digest if that is absent or empty), and each key once |
| `EventStores.LoadAllAfterRun` | src/core/nostr/sqlite-store.ts:241-290 | what `loadAll` then gives: for every key its last accepted event without nameless tags, each id once, by `created_at` and then by last write, and nothing else |
| `EventStores.FirstWriteWins` | src/core/storage/memory-node-storage.ts:89-101 | after any sequence of upserts an entry is held exactly if it is the first write of its key (its id, even an empty one, or its JSON text), and each key once |
| `EventStores.SqliteLoads` | src/core/nostr/sqlite-store.ts:36-49 | if keys determine events, exactly the accepted events given are loaded, under their keys and without nameless tags |
| `EventStores.StoresMatch` | src/core/storage/event-repository.ts:1-12 | after the same upserts the relational store loads the accepted ones of the events the in-memory one loads, rendered, as the same multiset, each once, if both keys tell the same events apart; both by `created_at`, then by last and by first write |
| `EventStores.EmptyIdDiffers` | src/core/nostr/sqlite-store.ts:36-49 | an event without an id and the same one with an empty id: the relational store keeps one of them, under its digest, and the in-memory one both |
| `EventStores.StoresAgree` | src/core/storage/memory-node-storage.ts:86-112 | after the same upserts of events with non-empty ids that determine them both repositories load exactly these events, each once, as the same multiset, by `created_at`, and among equal times by last and by first write |
| `SyncLog.SyncManager.constructor` | src/node/sync-manager.ts:53-62 | the log that recording what the event store holds gives; from then on the log is always what recording the loaded and then the stored events gives |
| `SyncLog.LogKeysSeparate` | src/node/sync-manager.ts:601-603 | the texts of two log keys are equal exactly if the keys are, for non-negative times and ids with at most one dash |
| `SyncLog.DefaultIds` | src/node/sync-manager.ts:256-256 | a default id is the publisher, a dash and the time, and tells apart what differs in either |
| `SyncLog.SyncManager.RememberEvent` | src/node/sync-manager.ts:586-591 | an event is appended unless the log holds one with its id, or, if it has none, one without an id of the same kind, publisher and time |
| `SyncLog.SyncManager.RecordEvent` | src/node/sync-manager.ts:593-599 | the log as above, and the event always goes to the store |
| `SyncLog.SyncManager.HydrateEventStore` | src/node/sync-manager.ts:579-584 | the log after loading the stored events in order |
| `SyncLog.SyncManager.SendDeltaRequest` | src/node/sync-manager.ts:162-169 | asks for the given time, else the peer's last-seen time, else 0; the request of kind 20800 with that time and the limit 500 is logged and stored |
| `SyncLog.SyncManager.OnPeerConnected` | src/node/sync-manager.ts:171-173 | asks from the peer's last-seen time, 0 if it is forgotten |
| `SyncLog.SyncManager.OnPeerDisconnected` | src/node/sync-manager.ts:60-60 | forgets this peer's last-seen time and no other |
| `SyncLog.SyncManager.NoteMessage` | src/node/sync-manager.ts:74-80 | a peer's last-seen time only grows |
| `SyncLog.SyncManager.BuildDelta` | src/node/sync-manager.ts:499-512 | the loop sorts the recent log entries into the four synced kinds, in order |
| `SyncLog.SyncManager.HandleDeltaRequest` | src/node/sync-manager.ts:491-526 | answers with that delta and logs and stores the answer |
| `SyncLog.SyncManager.HandleDeltaResponse` | src/node/sync-manager.ts:528-566 | records in log and store everything the response carries, with default ids, skipping unreadable reputation deltas |
| `DeltaSync.MergeGrows` | src/node/sync-manager.ts:528-599 | log entries never change, move or vanish |
| `DeltaSync.MergeIdempotent` | src/node/sync-manager.ts:528-566 | applying a response twice leaves the log as applying it once |
| `DeltaSync.DeltaCarries` | src/node/sync-manager.ts:491-566 | a response brings, under their ids or default ids, exactly the responder's events from the asked time on of kinds 10800, 10801 and 30801, and readable ones of kind 10802 |
| `DeltaSync.ExchangeCompletes` | src/node/sync-manager.ts:491-566 | after an exchange the requester holds all the responder's movable events if and only if it held those from before `since` |
| `DeltaSync.ExchangeExact` | src/node/sync-manager.ts:491-566 | event by event: the requester holds it afterwards if and only if it did before or the request reaches back to it |
| `DeltaSync.ReconnectReaches` | src/node/sync-manager.ts:57-61 | after a disconnect the next request brings every movable event that is not of negative time |
| `DeltaSync.LastSeenMisses` | src/node/sync-manager.ts:162-169 | a request from the last-seen time can miss an event the peer got late |
| `DeltaSync.TwoWayAgreement` | src/node/sync-manager.ts:491-566 | for any two logs: after a two-way exchange the movable events are equal exactly if the entries without an id were |
| `DeltaSync.MergeIsUnion` | src/node/sync-manager.ts:528-566 | between logs as nodes write them an exchange is set union of announcements, replicas, routes and reputation deltas |
| `DeltaSync.UnreadableStays` | src/node/sync-manager.ts:552-562 | a reputation delta with unreadable content is never taken over |
| `DeltaNetwork.RunGood` | src/node/sync-manager.ts:491-603 | in every run with loss, delay and repetition each log only grows at its end, keeps unique keys, and holds events of the synced kinds only with an id and readable |
| `DeltaNetwork.ChainsSpread` | src/node/sync-manager.ts:491-566 | after any honest run every node that a time-ordered chain of exchanges joins to a start node holds each movable event that node started with |
| `DeltaNetwork.ExchangeReaches` | src/node/sync-manager.ts:162-169 | one full exchange is such a chain |
| `DeltaNetwork.ExchangeIsUnion` | src/node/sync-manager.ts:162-169 | a full exchange between two nodes in a good network gives the requester the union, and the responder keeps what it had |
| `DeltaNetwork.TwoWayExchangeAgrees` | src/node/sync-manager.ts:491-566 | after any honest run an exchange in each direction leaves two nodes with the same announcements, replicas, routes and reputation deltas from `since` on, namely all that either had |
| `Restart.LogIsFirst` | src/node/sync-manager.ts:593-599 | a log holds exactly the first recorded event of every log key |
| `Restart.RebuiltIsLoaded` | src/node/sync-manager.ts:579-584 | after a restart the log is exactly what the relational store loads |
| `Restart.LogReturns` | src/node/sync-manager.ts:579-599 | every log entry of a known kind comes back from the relational store, one without an id under its digest |
| `Restart.RestartFromSqlite` | src/node/sync-manager.ts:579-599 | for every history of the store: the rebuilt log holds the rendered log entries and besides exactly those events without an id whose log key was taken |
| `Restart.RestartKeepsSynced` | src/node/sync-manager.ts:579-599 | the events that exchanges move are the same before and after, nameless tags aside |
| `Restart.RestartKeepsLog` | src/node/sync-manager.ts:579-603 | log and rebuilt log hold the same events if and only if every entry is of a known kind, has a non-empty id and only named tags |
| `Restart.IdlessIsRenamed` | src/core/nostr/sqlite-store.ts:36-49 | an event without an id is in the log, not in the rebuilt one, and back under its digest |
| `Restart.RestartFromMemory` | src/core/storage/memory-node-storage.ts:86-112 | for every history of the in-memory repository: the rebuilt log holds the same events, although they were sorted by time |
| `Restart.LoadedFirst` | src/core/storage/memory-node-storage.ts:103-105 | sorting by time keeps the first event of every log key first |
| `Restart.StartAgain` | src/node/sync-manager.ts:53-56 | stopping and starting a sync manager on its store: the new object's log is as said above |
| `Pieces.SplitPieces` | src/node/content-store.ts:28-34 | the loop cuts content into pieces of 524288 bytes, empty content into one empty piece |
| `Pieces.SplitConcat` | src/node/content-store.ts:28-34 | splitting and joining is the identity on every byte string |
| `Pieces.PieceIsRange` | src/core/storage/memory-node-storage.ts:13-19 | piece i is byte range i, and there are as many pieces as ranges that begin inside |
| `Pieces.PieceSizes` | src/core/storage/memory-node-storage.ts:13-19 | every piece but the last is full; the last is empty only for empty content |
| `Pieces.FilesystemServesPieces` | src/core/content/filesystem-provider.ts:19-24 | the file provider serves exactly the pieces |
| `Pieces.HttpServesPieces` | src/core/content/http-provider.ts:3-7 | asked for the computed range, a server following section 14.1.2 of RFC 9110 returns the piece if and only if the content is not empty |
| `ContentStores.StoredForever` | src/node/content-store.ts:128-167 | content put stays retrievable after any further puts, the hash being injective |
| `ContentStores.MemoryContentRepository.constructor` | src/core/storage/memory-node-storage.ts:21-23 | an empty repository |
| `ContentStores.MemoryContentRepository.Put` | src/core/storage/memory-node-storage.ts:25-55 | the repository refines a map from hash to content: this hash now stands for this content, all others as before |
| `ContentStores.MemoryContentRepository.HasPiece` | src/core/storage/memory-node-storage.ts:57-60 | exactly the pieces of stored content are had |
| `ContentStores.MemoryContentRepository.GetPiece` | src/core/storage/memory-node-storage.ts:62-77 | the piece of the stored content, or none outside it |
| `ContentStores.ContentStore.constructor` | src/node/content-store.ts:60-118 | an empty store in a new directory |
| `ContentStores.ContentStore.Reopen` | src/node/content-store.ts:60-118 | opening a data directory that another store has left changes nothing in it |
| `ContentStores.ContentStore.Put` | src/node/content-store.ts:128-167 | the same refinement for files and SQL tables |
| `ContentStores.ContentStore.WriteFiles` | src/node/content-store.ts:136-138 | the piece files of this hash are written; those of other hashes stay |
| `ContentStores.ContentStore.WriteHashes` | src/node/content-store.ts:152-155 | the hash rows of this key are replaced, in order |
| `ContentStores.ContentStore.LoadPieceHashes` | src/node/content-store.ts:221-229 | the rows of a key ordered by index are the hashes of its pieces |
| `ContentStores.ContentStore.HasPiece` | src/node/content-store.ts:169-181 | as for the memory repository |
| `ContentStores.ContentStore.GetPiece` | src/node/content-store.ts:183-198 | the right piece while files are intact; whatever the files hold, only bytes with the recorded hash |
| `ContentStores.ContentStore.GetContent` | src/node/qdht-node.ts:487-503 | reading back is the identity; with lost or altered files the answer is the original or none |
| `Replicas.ReplicaStore.DeclareTotal` | src/core/content/replica-store.ts:5-10 | sets the total and changes no held piece |
| `Replicas.ReplicaStore.AddPiece` | src/core/content/replica-store.ts:12-19 | adds one index to one hash |
| `Replicas.ReplicaStore.HasPiece` | src/core/content/replica-store.ts:21-23 | membership in the held set, false for unknown hashes |
| `Replicas.ReplicaStore.IsComplete` | src/core/content/replica-store.ts:25-31 | true exactly if a total is declared and no more pieces are missing than are held past the end |
| `Replicas.CompleteMeansEvery` | src/core/content/replica-store.ts:25-31 | that means "every piece is held" exactly unless some are missing and at least as many are held past the end; equally, exactly if none is past the end, or all are held, or fewer than the total |
| `Replicas.StrayPieceCounts` | src/core/content/replica-store.ts:25-31 | pieces 0 and 5 of two: complete by count, and piece 1 is missing |
| `Replicas.BuildNeighbourProviders` | src/node/piece-fetcher-service.ts:94-118 | the loop gives the neighbours that offer something, in order, as providers |
| `Replicas.ProvidersExact` | src/node/piece-fetcher-service.ts:94-118 | one by one: exactly the neighbours with ranges or a replica, in order, each under its own id with the reputation of that id, and with its own ranges, or all pieces if it has none |
| `Replicas.NeighbourServes` | src/node/piece-fetcher-service.ts:94-118 | some provider serves a piece exactly if some neighbour advertises it or holds a replica without ranges |
| `Replicas.BestIsBest` | src/core/content/piece-fetcher.ts:31-38 | the chosen provider serves the piece and no serving one has a higher reputation; there is one if any serves |
| `Replicas.BestIsFirst` | src/core/content/piece-fetcher.ts:31-38 | reputation ties go to the provider listed first |
| `Replicas.RankedUnique` | src/core/content/piece-fetcher.ts:40-49 | a ranking by falling reputation and index is determined by its members |
| `Replicas.SelectPiecesToFetch` | src/core/content/piece-fetcher.ts:18-54 | exactly the missing pieces that some provider serves, each once, each with the first of the serving providers of highest reputation; a task comes earlier if that reputation is higher, or equal and its index lower |
| `Replicas.SelectionUnique` | src/core/content/piece-fetcher.ts:18-54 | there is only one such selection |
| `FetchPool.QueueIsUncached` | src/node/piece-fetcher-service.ts:47-51 | the selected pieces come first in their order and the others follow by index, no index is queued twice, and the queue is exactly the uncached indices if and only if no selected piece is cached, which holds when every cached piece is in the replica store |
| `FetchPool.StepKeeps` | src/node/piece-fetcher-service.ts:62-78 | each event of a worker keeps queued, in-flight and fetched indices a partition of the first queue, no index with two workers, and every filled slot right |
| `FetchPool.RunKeeps` | src/node/piece-fetcher-service.ts:62-81 | so does every interleaving, for every number of workers |
| `FetchPool.FinishedIsComplete` | src/node/piece-fetcher-service.ts:62-81 | when all workers have returned, every queued index was fetched exactly once, taken in queue order, and every slot is the cached or the fetched piece |
| `FetchPool.StepProgresses` | src/node/piece-fetcher-service.ts:62-78 | no worker is ever stuck: each event brings the end nearer |
| `FetchPool.WorkerCount` | src/node/piece-fetcher-service.ts:80-80 | the smaller of the limit and the queue length, but at least one worker |
| `FetchPool.PieceFetcherService.constructor` | src/node/piece-fetcher-service.ts:28-39 | an empty piece cache |
| `FetchPool.PieceFetcherService.FetchContent` | src/node/piece-fetcher-service.ts:41-92 | for every interleaving: the cached and fetched pieces in order, if they have the hash, and otherwise the provider of every selected piece to blame; as many workers as allowed and needed, on a queue with the selected pieces first; cache and replica store gain exactly the fetched pieces |
| `FetchPool.PieceFetcherService.RunWorkers` | src/node/piece-fetcher-service.ts:60-81 | the shared queue, slots, cache and replica store step as the state machine does until every worker has returned |
| `FetchPool.PieceFetcherService.PlanQueue` | src/node/piece-fetcher-service.ts:47-51 | the queue of a call is exactly its uncached indices, each once |
| `FetchPool.PieceFetcherService.FillSlots` | src/node/piece-fetcher-service.ts:53-59 | the slots start with exactly the cached pieces |
| `FetchPool.FetchedIsOriginal` | src/node/piece-fetcher-service.ts:41-92 | with a range-correct provider and right cached pieces the assembled bytes are the original content |
| `FetchPool.FilesystemRangeCorrect` | src/core/content/filesystem-provider.ts:19-24 | the file provider is range-correct for the descriptors the fetcher builds |
| `FetchPool.FailureSticks` | src/node/piece-fetcher-service.ts:44-92 | after a failed hash check a later call assembles the same bytes whatever its provider |
| `Bootstrap.BootstrapService.constructor` | src/node/bootstrap-service.ts:18-29 | an empty cache |
| `Bootstrap.BootstrapService.HandleEvent` | src/node/bootstrap-service.ts:66-114 | exactly a delta request (kind 20800) is answered, with the cached ids in order; a record is passed on and cached exactly if it is of kind 30181, verified, foreign, its time plus its expiry tag is not past, and any cached record of its pubkey is strictly older; nothing else changes the cache |
| `Bootstrap.AcceptedIsTaken` | src/node/bootstrap-service.ts:101-112 | caching a record: in the place of the one of its pubkey, or last, where a full cache loses the first of its oldest records, unless that has an empty pubkey |
| `Bootstrap.BootstrapService.CachedIds` | src/node/bootstrap-service.ts:132-134 | the ids in insertion order |
| `Bootstrap.BootstrapService.OnPeerDisconnected` | src/node/bootstrap-service.ts:54-57 | drops exactly the peer's record |
| `Bootstrap.BootstrapService.EvictExpired` | src/node/bootstrap-service.ts:162-168 | deleting while iterating keeps exactly the records whose time plus expiry tag is not past, in order |
| `Bootstrap.BootstrapService.EvictOldestEntry` | src/node/bootstrap-service.ts:170-182 | drops the first record of least time, unless its pubkey is empty |
| `Bootstrap.AcceptBounded` | src/node/bootstrap-service.ts:101-112 | accepting a record keeps one record per pubkey and the bound |
| `Bootstrap.EmptyPubkeyBreaksBound` | src/node/bootstrap-service.ts:170-182 | without verification, which rejects it, an empty pubkey would never be evicted and break the bound |
| `Bootstrap.RunBounded` | src/node/bootstrap-service.ts:66-182 | over every run of messages, disconnects and sweeps: one record per pubkey, at most maxPeers of them (at least one place), all verified and foreign |
| `Bootstrap.RunHeard` | src/node/bootstrap-service.ts:66-182 | over every run: whatever is cached is a verified foreign record of kind 30181 that was heard at a time when it was not expired |
| `Bootstrap.BoundHolds` | src/node/bootstrap-service.ts:101-112 | never more than maxPeers records, over all runs, if and only if maxPeers is at least 1 |
| `Bootstrap.RunTimeRises` | src/node/bootstrap-service.ts:101-112 | while a pubkey stays cached its record only gives way to one of strictly later time |
| `Bootstrap.RecencyIsLatest` | src/node/bootstrap-service.ts:101-112 | the reference list holds exactly the latest record of every pubkey heard, in order of time |
| `Bootstrap.AcceptIsLru` | src/node/bootstrap-service.ts:101-112 | one accepted record takes an LRU cache to an LRU cache |
| `Bootstrap.RunIsLru` | src/node/bootstrap-service.ts:66-114 | on runs of accepted records of rising time, without expiry and disconnect, the cache is exactly the latest records of the maxPeers pubkeys heard most recently |
| `Routes.Clamp01` | src/core/discovery/reachability.ts:431-436 | the nearest value in [0, 1] |
| `Routes.AggregateReports` | src/core/discovery/reachability.ts:209-221 | the insertion-ordered map holds the aggregate of the subject's reports |
| `Routes.AggregateRepresents` | src/core/discovery/reachability.ts:209-221 | kept reports are the subject's, one per key, and every report of the subject is matched by a kept one with its key and at least its score |
| `Routes.AggregateExact` | src/core/discovery/reachability.ts:209-221 | the kept reports one by one: of every transport, address and port the subject's reports name, the first report of the highest raw score (confidence plus 0.35 if dialled back, less 0.15 if not), in the order in which the places were first named |
| `Routes.KeyInjective` | src/core/discovery/reachability.ts:215-215 | keys are equal exactly for the same transport, address and port, addresses with colons included |
| `Routes.BuildRouteAnnouncement` | src/core/discovery/reachability.ts:207-250 | identity, sequence and time as given; at most two endpoints, of the subject's reports of highest raw score at different places, best first, each with its address, source and the score clamped into [0, 1], then the relay; and the NAT estimate of all reports |
| `Routes.BuiltIsTwoBest` | src/core/discovery/reachability.ts:223-236 | why: any other report of the subject is beaten by an announced one of its place, or by both |
| `Routes.EstimateNatType` | src/core/discovery/reachability.ts:117-145 | the loop and its branches compute the one estimate whose meaning the reports fulfil |
| `Routes.EstimateUnique` | src/core/discovery/reachability.ts:117-145 | each estimate in terms of the reports: any success, two successes, two addresses, two ports; exactly one of these meanings holds |
| `Routes.EstimateIsOwn` | src/core/discovery/reachability.ts:246-246 | the estimate over all reports is that over the subject's own if and only if the others are harmless: no success among them, or the same address and port, or whatever the own estimate allows |
| `Routes.OthersChangeEstimate` | src/core/discovery/reachability.ts:246-246 | one successful report about each of two subjects at two addresses gives carrier-grade NAT instead of a stable public address |
| `Routes.ResolveRouteAnnouncement` | src/core/discovery/reachability.ts:310-342 | none exactly if no event is a verified announcement (kind 30801) of the identity; otherwise the first of those with the highest sequence, and of these the latest time, with every confidence clamped, the first endpoint of highest confidence that is no relay as the best, and the first relay as the fallback |
| `Routes.ResolutionIs` | src/core/discovery/reachability.ts:310-342 | the same of the resolution function, in terms of the events alone |
| `Routes.LatestIsMaximum` | src/core/discovery/reachability.ts:314-322 | that is the first maximum by (sequence, time) among the valid announcements, and there is none exactly if no event is one |
| `Routes.LatestConcat` | src/core/discovery/reachability.ts:314-322 | resolving A then B is taking the later of the two results |
| `Routes.OrderIrrelevant` | src/core/discovery/reachability.ts:314-322 | without ties order and repetition do not matter |
| `Routes.TiesAreOrdered` | src/core/discovery/reachability.ts:319-321 | two announcements resolve the same in both orders exactly if they are equal or one is later |
| `Routes.BestEndpointIsBestReport` | src/core/discovery/reachability.ts:207-342 | built, parsed and resolved, the best endpoint is that of a subject's report with the highest raw score even when clamping makes ties, none exactly if no report is about the subject, and the relay is the fallback |
| `Framing.TrimFacts` | src/node/quic-adapter.ts:422-422 | trimming leaves no outer white space and changes nothing that has none; white space being the 25 characters that ECMAScript trims |
| `Framing.TrimExact` | src/node/quic-adapter.ts:422-422 | what is trimmed off at either end is white space and nothing else, and all is trimmed exactly if all is white space |
| `Framing.FramesExact` | src/node/qdht-node.ts:553-565 | the frames of some lines are exactly the lines that are not blank, in their order, each without its outer white space |
| `Framing.LinesPartition` | src/node/qdht-node.ts:555-556 | lines and rest put together give the text, and none contains a newline |
| `Framing.LinesUnique` | src/node/qdht-node.ts:555-556 | there is only one such cut |
| `Framing.QuicChannel.Receive` | src/node/quic-adapter.ts:419-428 | one value, without a byte order mark at its start: the trimmed non-blank complete lines of buffer and value are handed on, the unfinished end is kept |
| `Framing.QuicChannel.ReadLoop` | src/node/quic-adapter.ts:412-429 | any list of values decodes as the concatenation of the values without their leading marks |
| `Framing.RpcConnection.OnData` | src/node/qdht-node.ts:553-565 | the splitter hands on the trimmed non-blank complete lines of buffer and data and keeps the unfinished end |
| `Framing.ChunkingIrrelevant` | src/node/qdht-node.ts:551-565 | however a stream is cut, the splitter emits the lines of the whole and keeps its end |
| `Framing.FramesAreClean` | src/node/quic-adapter.ts:422-426 | every emitted frame is non-empty, without newline and without outer white space |
| `Framing.ReadUndoesWrite` | src/node/qdht-node.ts:551-565 | for any chunking, reading with the splitter undoes writing exactly if every payload is non-empty, free of newlines and without outer white space |
| `Framing.QuicReadUndoesWrite` | src/node/quic-adapter.ts:478-485 | reading a QUIC channel undoes writing for all chunkings if and only if every payload is clean and holds no byte order mark |
| `Framing.MarkIsLost` | src/node/quic-adapter.ts:419-419 | a cut before a mark inside a payload: the channel reads another payload than the splitter |
| `Framing.ThinnedDecode` | src/node/quic-adapter.ts:419-428 | marks that stand in outer white space of a line can be lost without any effect |
| `Framing.DecodersAgree` | src/node/quic-adapter.ts:412-429 | channel and splitter make the same of a text for all chunkings if and only if no mark is left in a frame or in the unfinished end |

## Left out

- Cryptography (signatures, sha256, NIP-44) and JSON text: taken as functions, as said above.
- Sockets, QUIC and WebSocket connections, timers, reconnects, discovery, HTTP transport, the CLI and the web UI.
- `jacobiEigen`, `amplitudeExact` and `recompute`: amplitudes from eigenvectors; the model is of the sparse path.
- The exponential in the reputation factor and the exploration floor: the forwarding probability is any function.
- Floating-point rounding.
- `erdosRenyi` and `fromAdjacency`: single passes of `setConnection`.
- Neighbour state, coverage, content and source bandwidth, replica counts and reports of the simulation: counters no decision depends on.
- The other handlers of the live sync manager (announcements, replicas, requests, service records) and its re-broadcasts: they record events through `RecordEvent`. A response that is not JSON, and a store that refuses an event of an unknown kind in the middle of a response: the rest of the response is then skipped.
- Adjusting reputations when deltas arrive or are replayed: applied again on every repetition.
- Names, MIME types, creation times and TTLs of stored content: carried along unread.
- Provider fallback and failing fetches: a failed fetch ends the call; and several `fetchContent` calls for one hash at a time.
- Progress events of `fetchContent`.
- The `Range` header as text: the model has its two positions.
- Non-finite and non-numeric fields in announcements and expiry tags; an expiry tag is a real number of seconds.
- Dial targets and the reachability directory: a mapping of resolved endpoints to URLs.
- Bytes of a character split across chunks.
- Restart.RestartFromMemory: states which events the rebuilt log holds, not their order, because loading sorts them by time.
- GraphStates.GraphState.GetAmplitude: models the branch without eigenvectors, because the other one is `amplitudeExact`.
- SqliteStore.NostrSqliteStore.constructor: a new file only, because `Reopen` is the case of an existing one.
- ContentStores.ContentStore.constructor: a new data directory only, because `Reopen` is the case of an existing one.
- Simulation.SimNode.ReceiveAnnouncement: leaves out the neighbour-state updates, because no decision of a run depends on them.
- EventStores.StoresAgree: states each store's own order of events of equal time and not that they are the same, because a rewritten event moves to the end of the SQL table only.
- GraphStates.AmplitudeSymmetric: assumes both directions stop at the same term, because the stopping test depends on the source.
