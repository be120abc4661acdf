# gospore: verified models of the runtime's shared state

gospore is an actor runtime. This project models the state that its actors share and
proves what that state keeps in every run: the actor tree and its service directory, the
manifest's visibility propagation, the state channel, the event ring, the table of pending
calls and the stream a caller reads, the gateway's outbound queue and subscription
registry, the two frame codecs, the restart supervisor, start delivery at boot, policy
evaluation and lease-based discovery.

Check the whole project with `dafny verify dfyconfig.toml` (Dafny 4.11).

## How it is built

* Each component has a *specification*: a datatype for the state, a function per critical
  section, a `Step` datatype, `Next` and `Run`. Steps interleave freely, so a lemma about
  `Run` speaks about every schedule. Main theorems are named `EveryRun…` or after the law.
* Each component that the source writes by updating fields, slices and maps in place also
  has a *class* with those fields, whose methods keep the source's loops and branches and
  whose `ensures` equate the new state with the specification function.
* Go pointers to tree nodes are handles into an arena that only grows, so that a node
  destroyed during its own build stays distinguishable from a later node with the same
  ActorID. Refs are identified with ActorIDs. Channels are sequences with a capacity.
* Time, the ActorID allocator, the outcome of `Build`, of a socket write or of a frame
  conversion, and the order in which a Go map is walked are parameters of a step.

| file | component |
|---|---|
| `Common.dfy` | options, byte strings, sorted keys |
| `TreeModel.dfy`, `TreeRuns.dfy`, `TreeLaws.dfy`, `TreeImpl.dfy` | actor tree and service directory |
| `Visibility.dfy` | struct visibility in the manifest export |
| `Ring.dfy`, `EventStore.dfy` | circular buffer and event streams |
| `Projection.dfy`, `StateChannel.dfy`, `StateStore.dfy` | state channel |
| `PendingSlot.dfy`, `PendingTable.dfy`, `PendingLaws.dfy`, `PendingImpl.dfy`, `CallStream.dfy`, `CallRuns.dfy` | pending calls and streams |
| `Outbound.dfy`, `OutboundLaws.dfy`, `Subscriptions.dfy` | gateway connection and session |
| `Wire.dfy`, `MessageFrame.dfy`, `GatewayFrame.dfy`, `WireLayout.dfy` | frame codecs |
| `Supervisor.dfy`, `StartOnce.dfy`, `Policy.dfy`, `Discovery.dfy`, `DiscoveryLaws.dfy` | smaller state machines |

## Where the code and its promises part

* The export keys its tables by namespace and type name. Every reached type resolves to
  itself, or to nothing if it has no schema, with nothing else listed and every listed type
  at its maximum visibility, if and only if no type with a schema shares its name with
  another type reached in its namespace (`Visibility.ExportIsMaximum`);
  `Visibility.NameCollisionLosesFields` is a graph where a reached type is missing.
* A free schema ID is chosen among the IDs given so far, so a type visited later may bring
  that very ID from the registry. IDs are distinct if and only if no type, on its first
  visit, brings an ID given out before (`Visibility.ExportIDsDistinct`).
* A delta cannot remove a field: batching is exact if and only if no field seen on the way
  has vanished at the end (`Projection.PatchExact`, `Projection.MergedExact`). A reconnect
  leads to the current snapshot if and only if: with an empty current snapshot, for which
  nothing is sent, the client held no fields either; otherwise its version was evicted or
  no field vanished since (`Projection.ReplayShape`, `Projection.ReconnectExact`).
* `Watch` and discovery's `Subscribe` fill a bounded channel before anyone can read it, with
  the lock held. The exact conditions under which they return are `Projection.ReplayFits`
  and `Discovery.SubscribeWedges`. The comment on `Subscribe` says that only `since > 0`
  replays; the code replays for `since = 0` as well, and the model follows the code.
* A watch over a published but empty snapshot is sent nothing, so the first delta mismatches
  although nothing was dropped (`StateChannel.StaleStartMismatches`). A plain watch starts on
  the store's version if and only if the current snapshot has fields or nothing has been
  published (`StateChannel.PlainWatchOk`), a reconnect if and only if it has fields or is the
  one the client holds (`StateChannel.WatchOk`). From such a start, on a subscription that is
  unbatched or whose flushes are sent in turn, the watcher is out of sync if and only if an
  update it has passed follows a drop (`StateChannel.EveryWatcherNotices`).
* The batch timer's callback unlocks between taking and sending, so a later flush can
  overtake an earlier one: nothing is dropped, and the update mismatches
  (`StateChannel.FlushesOvertake`). In runs without drops, every update continues the one
  before it if and only if every flush is sent in turn
  (`StateChannel.FalseMismatchIffOutOfTurn`).
* A stream looks its pump up when it is built, after the call was sent. If the terminal
  frame has been delivered by then, the table has dropped the slot and the pump does nothing.
  With fresh CorIDs, a call that is over and still open is read to its terminal if and only
  if its stream was built while the call was in the table, or its frames fit the channel;
  otherwise the reader takes what the channel held and waits before a full overflow until
  Close or Cancel (`CallRuns.OverCallsDrain`, `CallRuns.LateStreamStrands`,
  `PendingSlot.EveryRunFifo`). The comment on `pumpFor` relies on Register coming before the
  stream, which is not enough.
* A terminal frame that `Recv` reads is latched for certain if and only if the stream is
  neither closed nor cancelled (`CallStream.TerminalLatched`); otherwise an error may be
  returned once and the cancellation from then on (`CallStream.ClosedBranchForgets`).
* Registering a CorID that is still in the table silently replaces its slot and no counter
  records it; the counters add up if and only if that never happens
  (`PendingTable.Conservation`).
* A frame that cannot be converted spends a TransID. Accepted frames carry 1..n if and only
  if none was accepted after such a frame (`Outbound.EveryRunTransIDs`).
* The writer tests one queue and pops the other. Write order is accept order if and only if
  no write from the overflow succeeds after more than outChCapacity frames were accepted
  since the writer found both queues empty (`Outbound.OrderLostIffOvertaken`).
* `Walk` starts from the root pointer: what it shows is live if and only if the root is, and
  after the root is destroyed it goes on showing the tree as it was
  (`TreeImpl.WalkIsLiveIffRootIs`, `TreeImpl.WalkAfterRootDestroyed`).
* A policy rule for the literal role `*` is a wildcard rule. Flat keys make Evaluate right for
  every rule list if and only if the queried scope has no colon and the queried role none
  before its last character (`Policy.EvaluateIsMostSpecific`).
* The layout comment in message/kind.go gives the schema ID four big-endian bytes; the code
  writes a varint followed by the payload mode and the encoding. The model follows the code.

## Model

| member | source | states |
|---|---|---|
| `TreeModel.IndexIsReachableSet` | tree/impl.go:183-330 | in a structured tree with a live root, byID holds a node if and only if some path of names leads to it from the root, and then only one path; once the root is destroyed byID is empty |
| `TreeModel.PostOrderIsSubtree` | tree/impl.go:318-330 | collectPostOrder lists exactly the live nodes of the subtree, each once, descendants before ancestors |
| `TreeRuns.InsertStructured` | tree/impl.go:216-225 | reserving a child keeps the index, the parent and child links and acyclicity in agreement |
| `TreeRuns.RemoveStructured` | tree/impl.go:248-257 | detaching a node removes its subtree from the index and nothing else, and leaves a structured tree |
| `TreeRuns.EveryRunKeepsInv` | tree/impl.go:183-330 | in every interleaving of Spawn's phases, nested spawns, Destroy and the service calls: the tree is structured, every pending node has exactly one spawner, no service name is both global and scoped, a global name has one owner, and only live actors own registrations |
| `TreeRuns.FinishVerdict` | tree/impl.go:233-272 | a successful build commits if and only if its own node is still live; the parent test never fails alone; a rollback removes exactly the spawner's own subtree, whoever holds the ActorID by then |
| `TreeRuns.StepOnlyForgets` | tree/impl.go:183-330 | no step revives a node or changes its identity, its parent or its name, and a committed node never becomes pending again |
| `TreeRuns.DestroyedForGood` | tree/impl.go:288-316 | a destroyed node stays out of the index in every continuation, even when its ActorID is reused |
| `TreeRuns.DirectoryPointwise` | tree/impl.go:404-519 | each register or unregister call changes the one directory entry it names, and only when it is accepted |
| `TreeRuns.DestroyDirectory` | tree/impl.go:298-306 | Destroy drops the registrations of the destroyed subtree and keeps all others as they were |
| `TreeLaws.ReserveIff` | tree/impl.go:193-230 | a spawn reserves a fresh pending live node, under a pending parent as under any other, if and only if some live node answers to the parent, nothing live hangs from it under the name and nothing live answers to the new ActorID; otherwise nothing changes |
| `TreeLaws.ReserveRefusals` | tree/impl.go:193-215 | which error goes with which of those facts |
| `TreeLaws.VerdictSays` | tree/impl.go:233-272 | a build that failed is reported as failed, else a dead parent before a dead node |
| `TreeLaws.CommitShows` | tree/impl.go:233-272 | a commit makes its own node visible and changes no other |
| `TreeLaws.DestroyTakesSubtree` | tree/impl.go:288-316 | Destroy ends exactly the descendants of the live node that answers to the ActorID, and nothing if none does |
| `TreeLaws.ScopedAccepted` | service/policy.go:20-25 | a scoped registration is accepted if and only if the name is well formed, the owner is live and has no such entry, and no actor exposes the name globally; each refusal has its own error |
| `TreeLaws.GlobalAccepted` | service/policy.go:39-50 | a global registration is accepted if and only if the name is well formed, the owner is live, and either it exposes the name already or nobody does, globally or scoped; each refusal has its own error |
| `TreeImpl.WalkIsShownSet` | tree/impl.go:377-402 | while the root is live, Walk shows exactly the live nodes with no pending node between them and the root |
| `TreeImpl.WalkIsLiveIffRootIs` | tree/impl.go:377-402 | in a structured tree with a committed root, everything Walk shows is live if and only if the root is |
| `TreeImpl.WalkAfterRootDestroyed` | tree/impl.go:288-316 | destroying the root takes every node out of the index and leaves what Walk shows as it was |
| `TreeImpl.EveryRunWalk` | tree/impl.go:377-402 | both hold in every run: the root is never pending |
| `TreeImpl.ActorTree.ReservePhase` | tree/impl.go:193-225 | phase 1: fails for an unknown parent, a taken name, a failing allocator or an ActorID in use, and otherwise inserts one pending node |
| `TreeImpl.ActorTree.CollectPostOrder` | tree/impl.go:318-330 | the recursive walk over sorted names computes the post-order |
| `TreeImpl.ActorTree.FinishPhase` | tree/impl.go:233-272 | phase 3 as a loop over maps reaches the specified tree, verdict and teardown order |
| `TreeImpl.ActorTree.Destroy` | tree/impl.go:288-316 | removes exactly the target's subtree and returns it descendants first; an unknown target changes nothing |
| `TreeImpl.ActorTree.WalkFrom` | tree/impl.go:384-394 | the recursive walk computes the pre-order that skips pending subtrees |
| `TreeImpl.ActorTree.LookupScoped` | tree/impl.go:452-470 | returns the registration of the nearest strict ancestor that has one, and nothing if and only if none has |
| `TreeImpl.ActorTree.AddScopedService` | tree/impl.go:404-427 | registers under the caller's ActorID, refusing invalid names, unknown owners, global names and duplicates |
| `TreeImpl.ActorTree.AddGlobalService` | tree/impl.go:472-505 | the loop over all owners decides as the specification does: one owner per name, none if a scoped one exists |
| `Visibility.AssignWalk` | app/export.go:107-172 | over reached types of which none with a schema shares its name: one walk terminates on every cyclic type graph, lifts its start to the given level or above, changes the level of no schema-bearing type it does not reach, leaves the fields of each changed type at least as visible as it, and lists types under their own keys only |
| `Visibility.LeadsIsSucc` | app/export.go:164-171 | the walk goes on from a type to exactly those structs that lie, through any nesting of pointers, slices, arrays, map keys and map elements, in an exported field of it, and from none without a schema |
| `Visibility.TargetsAreHeld` | app/export.go:450-471 | a field holds exactly the structs that its element and key steps lead to |
| `Visibility.RootTargetIsHeld` | app/export.go:109-121 | a root starts the walk at the struct that pointer, slice and array steps lead to; a map leads to none |
| `Visibility.ExportInvariant` | app/export.go:185-225 | when no two types reached in a namespace clash: levels are a fixpoint along fields, every level is that of a root that reaches the type, and every key stands for its type |
| `Visibility.ExportIsMaximum` | app/export.go:107-249 | the manifest resolves every reached type to itself (to nothing without a schema), lists no other, and gives each listed type the maximum visibility of the roots that reach it, if and only if no schema-bearing type shares its name with another type reached in its namespace |
| `Visibility.NameCollisionLosesFields` | app/export.go:122-130 | a graph with two structs of one name where a reached type with a schema is not listed |
| `Visibility.ExportIDsDistinct` | app/export.go:131-162 | two keys of an export share a schema ID if and only if a type, on its first visit, brings a registered or builtin ID that was given out before |
| `Visibility.FreeIDIsRegistered` | app/export.go:425-448 | an export of two differently named structs where the one visited first takes the number that the registered one brings |
| `Visibility.ApartIDsDistinct` | app/export.go:131-162 | without name clashes, all IDs are distinct when the IDs that reached types bring are below the first user ID and differ from key to key, which can be checked before the export |
| `Visibility.IDValue` | app/export.go:131-162 | a type that brings a registered or builtin ID is exported under it, every other under a user ID |
| `Visibility.FreeIDIsLeast` | app/export.go:430-448 | a type that brings none gets the smallest user ID not given out before its first visit |
| `Visibility.NextFree` | app/export.go:430-448 | the smallest number from a start on that is not taken |
| `Visibility.Exporter.NextFreeStructID` | app/export.go:430-448 | the counting loop terminates with that number, from the first user ID on |
| `Visibility.Exporter.AssignStructID` | app/export.go:109-121 | unwraps the root type, walks from the struct it names and returns the ID under its key, or 0 |
| `Visibility.Exporter.AssignStruct` | app/export.go:122-172 | the recursive updates of levels, types and IDs compute the specified walk and the specified IDs, keep assigned IDs, terminate, and return the ID stored under the key |
| `Visibility.Exporter.AssignField` | app/export.go:450-471 | follows pointers, slices, arrays, and both sides of a map |
| `Visibility.Exporter.ExportAll` | app/export.go:185-225 | all roots in turn compute the specified export |
| `Ring.LastNPush` | events/ring.go:77-102 | the last capacity records after one more push |
| `Ring.RingBuffer.Push` | events/ring.go:77-102 | the circular buffer holds the last capacity records pushed and counts one eviction per overwritten record |
| `Ring.RingBuffer.Since` | events/ring.go:133-164 | the filtered records of that history after a stamp, in order, up to the limit |
| `EventStore.HeldIsContiguous` | events/store_impl.go:79-109 | the store's numbering makes the held records a contiguous range ending at the newest |
| `EventStore.SinceIsSuffix` | events/ring.go:133-164 | Since answers with the matching records of a suffix of the whole history, cut short only by eviction |
| `EventStore.OfferAccounted` | events/store_impl.go:79-109 | of the matching records of the history, each was read, waits in the channel or is counted as dropped, and what was read and what waits is a subsequence of them; one more push keeps that |
| `EventStore.OfferEnters` | events/store_impl.go:79-109 | a record of a kind asked for, every kind for an empty list, enters the channel while fewer than 16 records wait in it, and otherwise counts one drop |
| `EventStore.NoDropNoLoss` | events/store_impl.go:79-109 | with no counted drop, what was read and what waits are all the records asked for |
| `EventStore.ReadsAscend` | events/store_impl.go:79-109 | a subscriber reads in increasing sequence order |
| `EventStore.ReplayAccounted` | events/store_impl.go:124-173 | a subscription starts out accounted from the position where its replay starts |
| `EventStore.ReplayKeepsFirst` | events/store_impl.go:124-173 | a replay delivers its first 16 records and counts the rest as dropped |
| `EventStore.EventLog.Push` | events/store_impl.go:79-109 | overwrites the caller's number with the next one, stores the record and offers it to every subscriber |
| `EventStore.EventLog.Recent` | events/store_impl.go:111-122 | the filtered, capped suffix of the retained history |
| `EventStore.EventLog.Subscribe` | events/store_impl.go:124-173 | refuses a kind that is not valid; otherwise replays the matching records still held after since, or none for since = 0, and joins the live subscribers |
| `EventStore.EventLog.Receive` | events/store_impl.go:297-316 | a receive takes the oldest waiting record and every subscriber stays accounted |
| `Projection.PatchExact` | projection/store_impl.go:205-214 | a delta patches the old snapshot into the new one if and only if no field disappeared |
| `Projection.DeltaMinimal` | projection/store_impl.go:205-214 | a delta carries no field that the old snapshot has already with the same value |
| `Projection.PatchMerge` | projection/store_impl.go:312-327 | a merged delta has the effect of its two parts in order |
| `Projection.MergedExact` | projection/store_impl.go:266-327 | any run of consecutive deltas, merged, is a correct patch if and only if every field seen on the way is there at the end |
| `Projection.ReplayShape` | projection/store_impl.go:117-134 | a reconnect is sent nothing while the current snapshot is empty, the gap marker and the full snapshot for an evicted version, and the later deltas in order for a retained one |
| `Projection.ReconnectExact` | projection/store_impl.go:117-134 | the replay leads to the current snapshot if and only if: with an empty current snapshot, the client held no fields; otherwise its version was evicted or no field vanished since |
| `Projection.ReconnectLossless` | projection/store_impl.go:103-156 | for increasing versions and non-shrinking fields, reconnecting from any published version yields the current snapshot |
| `Projection.ReplayFits` | projection/store_impl.go:111-138 | the replay fits the channel of 16 if and only if the current snapshot is empty, the version was evicted or at most 16 publications came since |
| `StateChannel.WatchOk` | projection/store_impl.go:103-156 | a reconnect starts in the invariants below, and with the watcher on the store's version if and only if the current snapshot has fields or is the one the watcher holds |
| `StateChannel.PlainWatchOk` | projection/store_impl.go:131-134 | so does a watch without a version, if and only if the current snapshot has fields or nothing has been published |
| `StateChannel.EveryRunFaithful` | projection/store_impl.go:190-327 | in every run of publish, flush take, flush send in any order, receive and close, each update queued or in a flush's hand is a faithful delta or a published snapshot, and a client without a mismatch holds every field of a published snapshot, and exactly that snapshot as long as no field vanishes |
| `StateChannel.FaithfulPatches` | projection/store_impl.go:246-327 | a faithful delta patches the snapshot at PrevVersion into the one at Version if and only if no field vanished between them |
| `StateChannel.EveryLossShows` | projection/store_impl.go:246-301 | in every run of an open subscription whose flushes are sent in turn, an update fails to continue the one before it if and only if a delta was dropped between them |
| `StateChannel.UnbatchedInTurn` | projection/store_impl.go:246-250 | an unbatched subscription has no flushes to send out of turn |
| `StateChannel.EveryWatcherNotices` | projection/store_impl.go:246-301 | in every such run, once the replay is read, the watcher is synced if and only if no update it has passed follows a drop |
| `StateChannel.StaleStartMismatches` | projection/store_impl.go:117-134 | a watcher that starts at another version than the store mismatches on the first delta although nothing was dropped |
| `StateChannel.MismatchIffOutOfTurn` | projection/store_impl.go:266-284 | with nothing lost so far, sending the k-th of any number of flushes under way makes a false mismatch if and only if it is not the first |
| `StateChannel.FalseMismatchIffOutOfTurn` | projection/store_impl.go:266-284 | in every open run that drops nothing, every update continues the one before it if and only if every flush was sent in turn |
| `StateChannel.FlushesOvertake` | projection/store_impl.go:266-284 | two publications and two timers reach a state where the second flush can be sent first |
| `StateChannel.EveryFlushMatchesIff` | projection/store_impl.go:266-284 | in every run, with drops and out of turn, a flush that gets through continues the update before it if and only if it starts from the publication at which the last update that entered ends |
| `StateChannel.PublicationGetsThrough` | projection/store_impl.go:286-301 | a publication to an unbatched subscription is the last of its channel and log if and only if the subscription is open and fewer than 16 updates are unread |
| `StateChannel.FlushGetsThrough` | projection/store_impl.go:266-284 | a flush that is sent gets through under the same condition on the channel |
| `StateChannel.PublicationWaits` | projection/store_impl.go:246-264 | a batched publication waits for the timer, joined to what waits already |
| `StateChannel.TimerTakes` | projection/store_impl.go:266-277 | the timer takes what waits, once |
| `StateChannel.NeverFullNeverLossy` | projection/store_impl.go:190-301 | in every run of an open unbatched subscription that never has 16 unread updates at a publication, each publication of a version is logged once, and nothing is ever dropped |
| `StateChannel.ReceiveTakesOldest` | projection/store_impl.go:340-350 | a receive takes the oldest unread update |
| `StateStore.ActorState.Publish` | projection/store_impl.go:190-203 | stores the snapshot, pushes the delta to the ring and delivers it to every subscriber |
| `StateStore.ActorState.InitialUpdates` | projection/store_impl.go:117-134 | Watch's branches on the ring's bounds compute the specified replay |
| `StateStore.ActorState.Watch` | projection/store_impl.go:103-156 | installs the subscription with its replay, and blocks if and only if the replay exceeds the channel |
| `PendingSlot.PumpEffect` | invoke/pending.go:122-137 | pumping keeps the frame order and stops with the overflow empty or the channel full |
| `PendingSlot.EnqueueEffect` | invoke/pending.go:143-160 | an enqueued frame is last in the stream, and an accepted one leaves the overflow within its caps |
| `PendingSlot.EveryRunFifo` | invoke/pending.go:122-160 | in every interleaving of deliveries, release, stream construction, receives and pumps: the frames read, buffered and in overflow are the frames sent in order; a reader at an empty channel has nothing in overflow unless a pump is due or its stream was built after the release, and then if and only if more frames were sent than the channel holds |
| `PendingSlot.PendingBuffer.PumpLocked` | invoke/pending.go:122-137 | the loop moves frames as specified |
| `PendingSlot.PendingBuffer.EnqueueFrame` | invoke/pending.go:143-160 | appends, pumps and reports whether the caps still hold |
| `PendingTable.EveryRunBook` | invoke/pending.go:201-377 | over every run: slots and entries agree, each counter counts the fates it is named after, the per-mode and per-callID counts equal a recount, the table stays within its cap |
| `PendingTable.EveryRunOk` | invoke/pending.go:201-346 | over every run with buffered channels: also, each registration's stream has no terminal while it is in the table and ends with exactly one once the table has ended it |
| `PendingTable.NobodyHangs` | invoke/pending.go:201-346 | every registration is in the table, was closed, failed to send or was replaced, or has exactly one terminal frame, as the last of its stream; and no stream built while its call was in the table has overflow behind a channel with room |
| `PendingTable.Conservation` | invoke/pending.go:201-346 | registrations equal in-flight plus the seven outcomes if and only if every CorID was absent from the table when it was registered; the shortfall counts the others |
| `PendingTable.FreshCorIDsConserve` | id/corid.go:22 | with CorIDs never handed out twice the counters add up in every run |
| `PendingTable.CapacityVictim` | invoke/pending.go:201-258 | in a full table the smallest CorID loses its slot and gets a terminal frame |
| `PendingTable.TerminateNeedsRoom` | invoke/pending.go:201-258 | with nobody parked in a receive, the terminal error of an eviction gets through if and only if the channel has a buffer |
| `PendingLaws.AcceptedIff` | invoke/pending.go:143-160 | a frame is accepted if and only if the channel has room and nothing is in overflow, or the overflow stays within 8192 frames and 8 MiB with it |
| `PendingLaws.RegisterAdds` | invoke/pending.go:201-258 | below 4096 calls a fresh CorID displaces nobody |
| `PendingLaws.RegisterReplaces` | invoke/pending.go:201-258 | a CorID in use costs its own earlier registration the slot, and nobody else |
| `PendingLaws.RegisterEvicts` | invoke/pending.go:201-258 | a full table gives up its smallest CorID, whose stream ends with an error that carries that CorID and the reason |
| `PendingLaws.DropReleases` | invoke/pending.go:264-292 | Unregister and SendFailed release the named call and leave its buffer alone; an unknown CorID changes nothing |
| `PendingLaws.DeliverDecides` | invoke/pending.go:440-463 | a terminal frame ends its call as completed or errored, a frame past the caps evicts it, any other leaves it in the table, and no other call is touched |
| `PendingLaws.DeliverAppends` | invoke/pending.go:440-463 | a frame within the caps is the last of its call's stream |
| `PendingLaws.FlushEnds` | invoke/pending.go:298-346 | Flush empties the table and ends each call in it with an error under its own CorID that gives the reason, at the cost of at most the oldest buffered frame and the overflow |
| `PendingLaws.BuildBinds` | invoke/pending.go:474-486 | a stream built while its call is in the table gets the call's own pump, and none later unless the CorID is in use again |
| `PendingLaws.RecvTakes` | invoke/invoke.go:94-127 | a receive takes the oldest frame of the channel; with its own pump the overflow follows as far as there is room |
| `PendingLaws.EveryCallEndsAsFated` | invoke/pending.go:201-532 | in every run with buffered channels, the stream of an ended call ends with End if it completed, and else with an Error; either carries the call's own CorID, and an eviction gives its reason |
| `PendingLaws.EveryFrameRouted` | invoke/pending.go:440-463 | in every run a call's stream holds only frames that carry its CorID |
| `PendingLaws.EveryFlushSaid` | invoke/pending.go:298-346 | in every run the error of a flushed call gives the reason of a flush of the run |
| `PendingImpl.CallTable.FindVictim` | invoke/pending.go:201-258 | the scan over the slots finds the smallest CorID |
| `PendingImpl.CallTable.RegisterCall` | invoke/pending.go:201-258 | eviction, replacement and insertion on the fields compute the specified table |
| `PendingImpl.CallTable.UnregisterCall` | invoke/pending.go:264-276 | releases the slot as closed early, once |
| `PendingImpl.CallTable.SendFailedCall` | invoke/pending.go:280-292 | releases the slot as failed to send, once |
| `PendingImpl.CallTable.DeliverFrame` | invoke/pending.go:440-463 | delivers, releases on a terminal frame, evicts a stalled slot, and refuses unknown CorIDs |
| `PendingImpl.CallTable.Flush` | invoke/pending.go:298-346 | empties the table, terminates every stream in it and returns how many |
| `PendingImpl.CallTable.Build` | invoke/pending.go:474-486 | building a stream binds the slot then found under the CorID, or no pump |
| `CallStream.TerminalLatched` | invoke/invoke.go:94-127 | a terminal frame that is read is latched whatever the select picks, if and only if the stream is neither closed nor cancelled |
| `CallStream.TerminalSticky` | invoke/invoke.go:79-127 | a latched terminal is what every later Recv returns, whatever happens in between |
| `CallStream.ClosedBranchForgets` | invoke/invoke.go:94-127 | a Recv after Cancel may return an error once and the cancellation from then on |
| `CallStream.EmptyChannelReads` | invoke/invoke.go:94-127 | with nothing to receive a Recv blocks until Close, which ends the stream, or Cancel, which says so |
| `CallStream.RecvTakesFirst` | invoke/invoke.go:94-127 | a Recv on an open stream, with its own pump or nothing in overflow, takes the first waiting frame and pumps the next one in |
| `CallStream.DrainsInOrder` | invoke/invoke.go:94-127 | on such a stream a caller that keeps reading gets all waiting frames in order without blocking and ends with the terminal latched |
| `CallStream.StrandsInOverflow` | invoke/pending.go:474-486 | without a pump, reading on ends before an empty channel with the overflow untouched |
| `CallRuns.OwnPumpDrains` | invoke/pending.go:440-532 | in every run, a call that is over and open and whose stream was built while it was in the table is read to its terminal, unless that has been read |
| `CallRuns.EndedCallsTell` | invoke/invoke.go:94-168 | in every run, reading an ended call on leaves latched the end of the stream if it completed and otherwise a failure, with the reason of the eviction or flush |
| `CallRuns.OverCallsDrain` | invoke/pending.go:440-532 | in every run with fresh CorIDs, a call that is over and open is read to its terminal if and only if its stream was built while it was in the table or its frames fit the channel; otherwise the reader blocks for good with the terminal in overflow |
| `CallRuns.LateStreamStrands` | invoke/invoke.go:33-55 | a run of two deliveries into a channel of one before the stream is built, whose reader blocks for good |
| `CallStream.CallReader.Receive` | invoke/invoke.go:94-127 | Recv's branches on latch, done and channel, with the pump the stream was built with, compute the specified read |
| `Outbound.EveryRunConserved` | gateway/ws_frame_conn.go:317-480 | overflowBytes equals the bytes queued in overflow and stays within budget; every accepted frame is queued, in hand, written or lost to a failed write, and nowhere twice |
| `Outbound.EveryRunTransIDs` | gateway/session.go:83-105 | accepted frames carry increasing TransIDs, and exactly 1..n if and only if no frame was accepted after one that could not be converted |
| `Outbound.ConversionFailureLeavesGap` | gateway/session.go:83-105 | a run where the one accepted frame carries 2 |
| `Outbound.WrittenOnce` | gateway/ws_frame_conn.go:382-480 | no frame is written twice, nor both written and queued |
| `Outbound.OrderLostIffOvertaken` | gateway/ws_frame_conn.go:382-411 | in every run, what is written is a prefix of what was accepted if and only if no overflow write succeeds after more than outChCapacity acceptances since both queues were found empty |
| `Outbound.OvertakingBreaks` | gateway/ws_frame_conn.go:385-393 | such a write puts a frame before an older one that still waits |
| `Outbound.EveryCalmRunInOrder` | gateway/ws_frame_conn.go:382-411 | without such pops, what is written, in hand and queued is at every moment what was accepted, in order |
| `Outbound.StormReorders` | gateway/ws_frame_conn.go:382-411 | a run, with a channel of one, where the second frame is written first |
| `OutboundLaws.SendAcceptedIff` | gateway/ws_frame_conn.go:317-346 | on an open link a convertible, marshalable frame is accepted if and only if nothing overflows and the channel has room, where it then goes last, or the overflow stays within the byte budget with it, where it then goes last; a refused frame closes the link |
| `OutboundLaws.SendDropped` | gateway/session.go:83-105 | a frame that cannot be converted spends a TransID and leaves the queues and the link as they were, one that cannot be marshaled closes it, and a closed link takes nothing |
| `OutboundLaws.EveryRunClosedIff` | gateway/ws_frame_conn.go:317-480 | in every run the link is closed if and only if a close was forced, a write or a marshaling failed, or a frame had no place |
| `OutboundLaws.OnlyTheBudgetCloses` | gateway/ws_frame_conn.go:317-346 | without forced closes and failures, a link is closed if and only if a frame would have passed the budget |
| `OutboundLaws.StoppedHasWrittenAll` | gateway/ws_frame_conn.go:462-480 | a writer that stops without a failed write has written everything accepted |
| `OutboundLaws.EveryRunFlushes` | gateway/ws_frame_conn.go:382-411 | from every reachable link that has lost no frame to a failed write, a bounded number of good writes writes everything accepted, whatever the selects pick |
| `Outbound.WsConn.EnqueueOut` | gateway/ws_frame_conn.go:317-346 | channel first, then overflow within the byte budget, otherwise refused |
| `Outbound.WsConn.DrainOut` | gateway/ws_frame_conn.go:462-480 | writes both queues in order up to the first failing write |
| `Subscriptions.EveryRunTracked` | gateway/session.go:436-521 | in any order of subscribe, resubscribe, unsubscribe, failed begin and pump exit, each registration is cancelled, exiting, or the map entry of its SubID |
| `Subscriptions.TeardownReachesEveryPump` | gateway/session.go:198-205 | after the teardown loop every pump still running has been cancelled |
| `Subscriptions.EveryEntryAlive` | gateway/session.go:471-518 | in every run a mapped registration has not been through its exit, and before the teardown it is cancelled if and only if its call failed to begin |
| `Subscriptions.UnsubscribeEnds` | gateway/session.go:241-247 | after an unsubscribe every registration of the SubID is cancelled or exiting and its entry is gone; all others stay as they were |
| `Subscriptions.SubscribeReplaces` | gateway/session.go:471-485 | a resubscribe ends every earlier registration of the SubID, installs a fresh one and leaves all others as they were |
| `Subscriptions.DisplacedKeepsNewer` | gateway/session.go:471-521 | a displaced registration is cancelled and its exit leaves the newer entry alone |
| `Subscriptions.SubscriptionMap.Install` | gateway/session.go:471-485 | fires the displaced cancel and installs a fresh registration |
| `Subscriptions.SubscriptionMap.Leave` | gateway/session.go:510-518 | removes the entry only if it is still the pump's own |
| `Subscriptions.SubscriptionMap.CancelRemaining` | gateway/session.go:198-205 | the loop over the map leaves every registration cancelled or exiting |
| `Wire.UvarintRoundTrip` | gateway/frame_binary.go:219-250 | reading undoes writing a varint of up to 64 bits, whatever follows |
| `Wire.UvarintPrefix` | gateway/frame_binary.go:219-250 | a varint cut short is never read as another |
| `Wire.BigEndianRoundTrip` | message/frame.go:119-161 | fixed-width big-endian fields round-trip |
| `WireLayout.BigEndianByte` | message/frame.go:119-161 | a fixed-width field has its most significant byte first |
| `WireLayout.UvarintByte` | gateway/frame_binary.go:219-223 | a varint has seven bits to the byte, the least significant first, with a mark on all bytes but the last |
| `WireLayout.UvarintShortest` | gateway/frame_binary.go:219-223 | a varint has no byte too many |
| `WireLayout.ReadUvarintIff` | gateway/frame_binary.go:242-246 | a varint is read, as the number its groups stand for, if and only if its first unmarked byte is among the first ten and, as the tenth, at most 1 |
| `Wire.HeadersRoundTrip` | message/frame.go:119-161 | the sorted key and value list rebuilds the header map |
| `WireLayout.LastPairWins` | message/frame.go:225-245 | in a header list in any order, a key has the value of the last pair that carries it |
| `Wire.WriteHeaders` | gateway/frame_binary.go:110-116 | the loop over sorted keys writes the specified pairs |
| `Wire.ReadHeaders` | gateway/frame_binary.go:185-205 | the loop reads the given number of pairs, later keys overwriting, or fails |
| `MessageFrame.RoundTrip` | message/frame.go:119-250 | Unmarshal undoes Marshal for every valid frame, whatever follows it |
| `MessageFrame.StrictPrefixTruncated` | message/frame.go:165-250 | every strict prefix of an encoding is rejected as truncated |
| `MessageFrame.UnmarshalValidates` | message/frame.go:165-250 | whatever Unmarshal accepts is a valid frame |
| `MessageFrame.InvalidIsMalformed` | message/frame.go:94-117 | the bytes of a frame that breaks validation are rejected as malformed |
| `MessageFrame.EncodingsPrefixFree` | message/frame.go:119-161 | no encoding is a prefix of another frame's encoding |
| `WireLayout.MessageLayout` | message/frame.go:119-161 | the fields of a message in the order they are written, with their lengths, then the sorted headers |
| `WireLayout.AnyPairsRead` | message/frame.go:165-250 | a message with its header pairs in any order and with repeated keys is read as well |
| `WireLayout.ValidIff` | message/frame.go:94-117 | payload mode and encoding pass if and only if both are zero or, for the three payload kinds, the mode is raw and the encoding JSON or binary |
| `MessageFrame.Marshal` | message/frame.go:119-161 | refuses invalid frames and otherwise writes the encoding |
| `MessageFrame.UnmarshalFrame` | message/frame.go:165-250 | reads fields, then the header loop, then validates |
| `GatewayFrame.RoundTrip` | gateway/frame_binary.go:93-215 | a wire frame survives the round trip |
| `GatewayFrame.StrictPrefix` | gateway/frame_binary.go:125-215 | cut before the trailing From field it is truncated; cut inside that field only From is lost |
| `GatewayFrame.FlagsRoundTrip` | gateway/frame_binary.go:57-66 | packing encoding and compression is undone by both accessors if and only if both fit two bits |
| `WireLayout.GatewayLayout` | gateway/frame_binary.go:93-122 | magic, version 2, the fields in the order they are written, the sorted headers and From |
| `WireLayout.BadPreamble` | gateway/frame_binary.go:125-142 | another magic or version is malformed as soon as it shows, and fewer bytes are truncated |
| `WireLayout.FlagsBits` | gateway/frame_binary.go:57-66 | encoding in the two low bits of the flags, compression in the next two |
| `GatewayFrame.MarshalFrame` | gateway/frame_binary.go:93-122 | writes magic, version, fields, sorted headers and From |
| `GatewayFrame.UnmarshalFrame` | gateway/frame_binary.go:125-215 | checks magic and version as soon as they are read, then fields, headers and the optional From |
| `Supervisor.StampsAreWindow` | supervisor/supervisor.go:101-119 | forgetting at each decision loses nothing: the stamps are the decisions in the window ending now |
| `Supervisor.AfterCounts` | supervisor/supervisor.go:101-119 | the filter keeps as many stamps as lie strictly after the cutoff |
| `Supervisor.RestartIffWithinBudget` | supervisor/supervisor.go:101-119 | for non-decreasing readings, Restart if and only if at most max decisions, this one included, fall in the window |
| `Supervisor.AtMostMaxRestarts` | supervisor/supervisor.go:75-80 | no interval of the window's length holds more than max restarts |
| `Supervisor.OneForOne.Decide` | supervisor/supervisor.go:101-119 | the filtering loop keeps the stamps and the verdict as specified |
| `StartOnce.EveryRunOk` | app/bootstrap.go:172-196 | startSent and the deliveries agree, and a finished build has been started or is still covered by Phase 2 or the sweep |
| `StartOnce.StartExactlyOnce` | app/spawn.go:123-168 | in every interleaving no cell gets Start twice, and after the sweep every cell whose build is over got it exactly once |
| `StartOnce.BuildEnds` | app/spawn.go:123-168 | a new cell whose build ends after the flag is stored gets Start there, one whose build ends before is left to the boot |
| `StartOnce.SweepFinishes` | app/bootstrap.go:290-304 | in whatever order the snapshot is walked, the sweep ends and has started exactly the cells of the snapshot in addition |
| `StartOnce.Starter.Deliver` | app/bootstrap.go:275-288 | sends Start unless startSent says so already |
| `StartOnce.Starter.Sweep` | app/bootstrap.go:290-304 | every cell of the snapshot has been sent Start afterwards, none twice |
| `Policy.KeyInjective` | actor/policy.go:136-142 | a pair whose scope has no colon and whose role none before its last character shares its flat key with no other pair |
| `Policy.SnapshotHasLast` | actor/policy.go:144-156 | a key's value is that of the last rule spelled with it |
| `Policy.SeparateIsMostSpecific` | actor/policy.go:71-124 | when no other pair answers to a tried key, Evaluate answers with the rule of the longest matching scope, then the longest inherited role, then the wildcard, then the last duplicate, and not found if and only if no rule matches |
| `Policy.EvaluateIsMostSpecific` | actor/policy.go:71-124 | it does so for every rule list if and only if the queried scope has no colon and the queried role none before its last character |
| `Policy.ValidNamesMostSpecific` | id/role.go:40-67 | among valid role names it does so whatever the scopes |
| `Policy.UnsafeQueryLeaks` | actor/policy.go:136-142 | every other query is decided by some rule that does not match it |
| `Policy.SplitJoin` | actor/policy.go:95-97 | the parts have no dot and join to the scope |
| `Policy.JoinPrefix` | actor/policy.go:95-97 | joining the first parts gives the dot-prefixes that the parent loop tries |
| `Policy.ValidRoleName` | id/role.go:40-67 | true if and only if every dot-separated segment matches the segment grammar |
| `Policy.Effective` | id/role.go:24-38 | the role followed by its dot-prefixes, longest first |
| `Policy.PolicyStore.Reload` | actor/policy.go:126-130 | raises the version and replaces the snapshot |
| `Policy.PolicyStore.BuildSnapshot` | actor/policy.go:144-156 | the loop over the rules builds the snapshot |
| `Policy.PolicyStore.EvaluateRole` | actor/policy.go:71-124 | the scope and role loops compute the specified search |
| `Discovery.EveryRunOk` | discovery/memory.go:48-209 | over every run: folding the event log rebuilds the live set, live and expired namespaces partition all ever registered, numbers have no gap, and each watcher's stream is a gap-free run of the log reaching its end until it is dropped |
| `Discovery.EveryLeaseInFuture` | discovery/memory.go:48-138 | with positive TTLs every live lease is in the future |
| `Discovery.LapsedUntilAdvance` | discovery/memory.go:48-63 | a registration leaves a lapsed lease in the live set if and only if its TTL is not positive |
| `Discovery.AdvanceExact` | discovery/memory.go:116-138 | whatever the map order, Advance removes exactly the lapsed leases and never moves the clock back |
| `Discovery.RejoinedIff` | discovery/memory.go:48-63 | a registration is a rejoin if and only if the namespace was registered before and is not live |
| `Discovery.SubscribeWedges` | discovery/memory.go:164-178 | Subscribe blocks for ever if and only if more than 32 events are newer than since; otherwise the stream begins right after since |
| `Discovery.ReconnectResumes` | discovery/memory.go:164-178 | a watcher that subscribes again with its last number, at most 32 events later, misses nothing |
| `DiscoveryLaws.RegisteredLease` | discovery/memory.go:48-63 | Advance removes a registered instance if and only if its TTL from the registration has passed; no other lease is touched |
| `DiscoveryLaws.RenewedLease` | discovery/memory.go:65-77 | so for a renewed one, whatever was left of the old lease |
| `DiscoveryLaws.DeregisteredRejoins` | discovery/memory.go:79-91 | a deregistered instance is gone at once and its next registration is a rejoin |
| `DiscoveryLaws.EachCallPublishes` | discovery/memory.go:140-149 | each accepted call publishes one event with the next number, its kind and the instance under its lease |
| `DiscoveryLaws.OfferDelivers` | discovery/memory.go:193-209 | a listed watcher with fewer than 32 waiting events gets the next one; a full one is dropped from the list and keeps what it has |
| `DiscoveryLaws.RoomyHearsAll` | discovery/memory.go:164-209 | in every run, a watcher that is not stopped and whose channel always has room for what comes has got or waits for every event from its start on |
| `DiscoveryLaws.StopAndReceive` | discovery/memory.go:180-191 | a stopped watcher hears nothing more and keeps what waits; a receive takes the oldest of it |
| `Discovery.MemoryProvider.PublishLocked` | discovery/memory.go:140-209 | numbers the event, keeps the last 256 and offers it to every watcher, dropping full ones |
| `Discovery.MemoryProvider.RegisterInstance` | discovery/memory.go:48-63 | sets the lease, clears the expired mark and publishes the right kind |
| `Discovery.MemoryProvider.RenewLease` | discovery/memory.go:65-77 | extends a live lease, or reports not found |
| `Discovery.MemoryProvider.DeregisterInstance` | discovery/memory.go:79-91 | removes a live instance as expired, or reports not found |
| `Discovery.MemoryProvider.Advance` | discovery/memory.go:116-138 | the loop over the map, in any order, expires the lapsed leases and returns their instances sorted by namespace |
| `Discovery.MemoryProvider.SubscribeSince` | discovery/memory.go:164-178 | installs a watcher with its replay, or blocks |

## Left out

- Schema registry (schema/set.go): agreement of its two indexes and RegisterAuto's search for a free ID would add easy members only.
- HTTP handlers, socket calls, compression, CORS, ping loops and force-close timers: input and output.
- Script runtime, script bridge, reflection-based projection and handler registration, TypeScript generation: outside the shared state.
- Cell lifecycle and mailboxes: a Start that is sent counts as delivered; builds that end in a failed or cancelled OnInit are not modelled.
- Full interleaving inside one critical section: each lock-protected section is one step, and PendingTable's methods are one step each, so an Unregister between Deliver's enqueue and its release is not covered. A delivery that races Close counts as before it or after it.
- Integer widths: counters, versions and sequence numbers are unbounded, so their 64-bit wrap-around is not covered; the codecs do bound every field.
- Allocation failure when a length prefix is huge, and the decoding of payload bytes by a codec in Recv.
- A stream whose CorID another registration had reused by the time it was built pumps that other slot; PendingTable models it, and CallRuns.OverCallsDrain, with fresh CorIDs, rules it out.
- Recent-eviction records, dropped-frame diagnostics, stats snapshots, loggers and callbacks such as fireChange.
- Children, Parent and LookupID of the tree, Resolve of the provider, Get and GetField of the store: one-line reads of the modelled state.
- Visibility.Exporter.AssignStruct: leaves out that registering a new schema in the runtime's own namespace makes its name known to later lookups; which types have a schema, and the IDs known beforehand, are parameters.
- StateChannel.EveryLossShows: covers a subscription until Close; with drops and flushes out of turn together a mismatch no longer tells a loss, and EveryFlushMatchesIff says when it occurs.
- PendingTable.NobodyHangs: requires channels of capacity at least one, which is what the callers of Register create; PendingTable.TerminateNeedsRoom shows why.
- OutboundLaws.EveryRunFlushes: requires a channel of at least one frame, which the connection's tuning guarantees (gateway/ws_frame_conn.go:141-143).
- Subscriptions.TeardownReachesEveryPump: speaks of cancels fired; that a cancelled pump then ends rests on the call layer.
- Frame writers and readers handle the fixed fields by a table of shapes instead of one statement per field; the header loops are the source's.
