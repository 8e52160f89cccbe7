# Verified model of the warp block layer and portal coordination

A Dafny model of the parts of warp whose correctness depends on state that several operations share, with proofs about
every run of those operations. `dafny verify dfyconfig.toml` checks the whole project.

**Block layer.** `Extents` gives an extent map its meaning, a partial map from each virtual byte to an object, a position
and flags, and states what inserting and removing do to every byte. `Allocation` compares the running counter with the set
of bytes it counts, over whole runs. `ExtentMaps` is the table edited in place and proved against those edits.
`ThinVolumes` tiles read requests, `Snapshots` adds copy-on-write snapshots, and `ThinPools` holds the chunk allocator, for
one caller at a time and for calls interleaved at their atomic steps.

**Coordination.** `Coordination` is the hub coordinator, whose calls give up the lock while they wait. `Replication` is the
repair plan and its queue. `RateLimiting`, `RelayAuthorization` and `RelayRuns` are the relay service: its limiter, its
identities, sessions and revocations, and the rate guarantee the two give together; `RelayOverlaps` is the same for calls
that overlap. `IpAllocation` is the host allocator
and `AccessControl` the access lists with their budget of uses.

**Chunk boundaries.** `KittenScans` holds the scalar and the batched scans, `Boundaries` and `Layers` the boundary lists
and their in-place merges, and `BalancingPhase` the rounds that find and merge. `Sets` and `Indexes` are shared helpers.

## How the code is modelled

- Objects that the source updates in place are classes; their methods are proved equal to functions on values, and the run
  theorems are about those functions. Values the source clones and stores, such as `BlockExtent`, are datatypes;
  `split_at`, which shrinks its receiver, returns the shrunk extent beside the part split off.
- A `BTreeMap` is a map whose keys are visited in ascending order. A `DashMap` is a map visited in an unspecified order.
- Concurrent code is a state machine over its atomic steps; theorems quantify over every sequence of enabled steps.
- Clock readings are parameters, one for each reading the source makes; where a loop reads the clock for every element, the
  parameter is a function of the element. Hashes, boundary weights and signature checks are parameters too.
- `u64` values are unbounded. The counter of an extent map is the unwrapped integer, and `Allocation.RunBounded` puts it
  between 0 and the volume's size, so wrapped and unwrapped agree. The truncating casts to `u32` in a read are modelled.

## Where code and documentation differ

The model follows the code in each case.

- The allocation counter is not exact after every run. It is exact if and only if no edit of the run replaced an extent
  that had bytes on the books, and no byte of the final table lies in two extents that are not holes:
  `Allocation.RunExactIff`, for every run, through overlapping tables too. On a well-formed map the error of one edit is
  given by `Allocation.InsertDrift` and `Allocation.RemoveDrift`. Failing inputs are `Allocation.EmptyInsertLoses` and
  `Allocation.BackwardsRemoveDoubles`; `Allocation.InsertRepairs` shows that a later edit can make it exact again.
- `remove_range` keeps extents apart if and only if its range is forward or no extent straddles it:
  `Extents.RemovedWellFormed`, with a failing input in `Extents.BackwardsRemoveExample`.
- The coordinator's version is documented as incremented on each state mutation. Disconnects and heartbeats do not move it:
  `Coordination.DisconnectGoesUnnoticed`. What it does detect is stated as an equivalence in `Coordination.UndisturbedIff`.
- The pool's quota holds as long as one allocation is in flight at a time; with more, the overrun is bounded by
  `ThinPools.QuotaOverRuns`, and `ThinPools.QuotaAttained` reaches the bound for every number of calls.
- The balancing phase is documented to merge kittens until none remain. It fails for two reasons. The first chunk is never
  merged: `BalancingPhase.FirstKittenStays`, with the exact condition in `BalancingPhase.NoneRemainIff`. And the number of
  rounds is limited: `BalancingPhase.LimitLeavesKitten`, with the exact condition in `BalancingPhase.EnoughRoundsIff`.
- The relay limit is per minute, and twice the limit can pass in a minute: `RateLimiting.AtMostTwiceTheLimit`. With `k`
  calls at a time it is `k + 1` times the limit: `RateLimiting.AtMostPerSpan` and `RateLimiting.SpanBoundAttained`.
- A revoked identity is documented to be denied. A relay that passed the revocation list before can still be allowed on a
  later registration: `RelayOverlaps.OvertakenIsAllowed`, bounded by `RelayOverlaps.RevokedRunsDry`. Registrations of one
  id that overlap can leave index and counters wrong: `RelayOverlaps.IndexExactIff`, `RelayOverlaps.CountersBalanceIff`.
- Freeing a chunk that is not live is accepted and breaks the pool: `ThinPools.GivePartitioned` is the exact condition, and
  `ThinPools.DoubleFreeHandsOutTwice` what follows.
- Merging the last chunk of a layer whose left boundary has the greatest weight cuts off the end of the data:
  `Layers.MergeKeepsEndsIff`, with a failing input in `Layers.MergeCutsOffEnd`. No index
  that `find_kittens` returns is of that kind.
- A link that carries its own password is not charged for its uses: `AccessControl.LinkPasswordExample`. Recording charges
  a use if and only if a matching grant holds under the general password: `AccessControl.RecordSpends`. No other accessor
  is let in without being charged: `AccessControl.NoneUnpaid`.

## Model

| member | source | states |
|---|---|---|
| Extents.OneOwner | crates/warp-block/src/extent.rs:192-203 | no byte of a well-formed map lies in two extents |
| Extents.SplitKeepsBytes | crates/warp-block/src/extent.rs:79-97 | splitting keeps every byte with its object position and flags in exactly one part; it splits exactly at inner offsets |
| Extents.TrimIsTwoSplits | crates/warp-block/src/extent.rs:265-279 | for every range, also empty or backwards: a head or tail is kept exactly when splitting at the start or end cuts the extent, and it is the part cut off |
| Extents.InsertedWellFormed | crates/warp-block/src/extent.rs:221-249 | inserting any extent, also an empty one, keeps extents keyed by offset and apart |
| Extents.InsertedBytes | crates/warp-block/src/extent.rs:221-249 | per byte: the new range maps to the new extent, every overlapped extent is dropped whole, all else is unchanged |
| Extents.RemovedWellFormed | crates/warp-block/src/extent.rs:252-296 | a removal keeps extents apart if and only if the range is forward or no extent straddles it |
| Extents.RemovedBytes | crates/warp-block/src/extent.rs:252-296 | a forward removal unmaps exactly the bytes of its range; every other byte keeps object, position and flags |
| Extents.BackwardsRemoveExample | crates/warp-block/src/extent.rs:252-296 | a backwards range turns one extent into two that overlap |
| Extents.OverlayExact | crates/warp-block/src/extent.rs:221-296 | removing a range and inserting over it is an exact per-byte overlay, if and only if the extent is not empty or its offset is unmapped |
| Allocation.AllocatedMeans | crates/warp-block/src/extent.rs:186-189 | the bytes the counter stands for are those mapped to an extent that is not a hole |
| Allocation.SurplusIff | crates/warp-block/src/extent.rs:235-246 | for every table, overlapping or not, the lengths of the extents that are not holes add up to at least the distinct bytes, and exactly if and only if no byte lies in two of them |
| Allocation.LengthsCountBytes | crates/warp-block/src/extent.rs:235-246 | in a well-formed map they count each allocated byte once |
| Allocation.EditGap | crates/warp-block/src/extent.rs:221-296 | any edit of any table moves the counter away from the lengths in the table by exactly the length of the extents it replaces without subtracting |
| Allocation.InsertDrift | crates/warp-block/src/extent.rs:221-249 | an insert changes the counter's error by exactly the length of an extent an empty one replaces; so it stays exact if and only if that is 0 |
| Allocation.RemoveDrift | crates/warp-block/src/extent.rs:252-296 | any removal changes the counter's error by exactly the length of a backwards range that cuts an extent with bytes, and not at all otherwise |
| Allocation.EmptyInsertLoses | crates/warp-block/src/extent.rs:243-248 | an empty insert over an extent at the same offset leaves the counter too high by all of its length |
| Allocation.BackwardsRemoveDoubles | crates/warp-block/src/extent.rs:282-295 | a backwards removal inside an extent leaves the counter too high by the length of the range |
| Allocation.RunDrift | crates/warp-block/src/extent.rs:221-296 | all through every run, overlapping tables included, the counter exceeds the lengths by what was replaced and the bytes by what the table counts twice on top |
| Allocation.RunExactIff | crates/warp-block/src/extent.rs:187-296 | after any run the counter is not too low and nothing has underflowed; it is exact if and only if no edit replaced an extent with bytes on the books and no byte of the final table lies in two extents that are not holes |
| Allocation.InsertRepairs | crates/warp-block/src/extent.rs:221-296 | inserting the extent again after a backwards removal inside it makes the map well formed and the counter exact |
| Allocation.EditWellFormed | crates/warp-block/src/extent.rs:221-296 | one edit keeps extents apart if and only if it is not a backwards removal over a straddling extent |
| Allocation.RunWellFormed | crates/warp-block/src/extent.rs:221-296 | extents are apart all through a run if and only if none of its removals is a backwards one over a straddling extent |
| Allocation.RunExact | crates/warp-block/src/extent.rs:187-296 | after every run without empty inserts and backwards removals extents are apart and not empty and the counter is exact |
| Allocation.RunBounded | crates/warp-block/src/extent.rs:187-296 | if inserts also stay inside the volume the counter is between 0 and the volume's size |
| Allocation.LastWriterWins | crates/warp-block/src/extent.rs:221-296 | for callers that clear a range before they insert over it: over every run the map means, byte by byte, what the latest update of the byte says |
| ExtentMaps.ExtentMap.constructor | crates/warp-block/src/extent.rs:173-179 | a new map is empty with counter 0 |
| ExtentMaps.ExtentMap.Lookup | crates/warp-block/src/extent.rs:192-203 | the last extent that starts at or before the byte, if it covers it; on a well-formed map that is the byte map's answer |
| ExtentMaps.ExtentMap.LookupRange | crates/warp-block/src/extent.rs:206-218 | on any table exactly the overlapping extents, in ascending order |
| ExtentMaps.ExtentMap.RemoveKey | crates/warp-block/src/extent.rs:282-288 | on any table, taking out one extent subtracts its length, without underflow while the counter covers the lengths |
| ExtentMaps.ExtentMap.RemoveAll | crates/warp-block/src/extent.rs:235-241 | the collected extents are gone and their total length is subtracted |
| ExtentMaps.ExtentMap.Insert | crates/warp-block/src/extent.rs:221-249 | on any table the in-place edit is the insert on values, table and counter; it keeps a well-formed map well formed |
| ExtentMaps.ExtentMap.RemoveRange | crates/warp-block/src/extent.rs:252-296 | on any table the in-place edit is the removal on values, table and counter, also when several tails are put back at one offset; a well-formed map stays so exactly in the stated case |
| ExtentMaps.PiecesOfAll | crates/warp-block/src/extent.rs:258-295 | putting back the collected pieces in order leaves all heads and the last tail in the table and counts every piece |
| ExtentMaps.ExtentMap.CloneForSnapshot | crates/warp-block/src/extent.rs:299-314 | a fresh map with every extent marked shared, the same counter and size |
| ThinVolumes.ThinVolume.constructor | crates/warp-block/src/thin.rs:227-241 | a new volume has an empty extent map of its own size |
| ThinVolumes.TileRequest | crates/warp-block/src/thin.rs:305-350 | the loop's ranges tile the request without gap or overlap, with lossless casts, and each agrees with the byte map |
| ThinVolumes.ThinVolume.Read | crates/warp-block/src/thin.rs:289-351 | out of bounds fails; otherwise the ranges tile the request, zero bytes are unmapped or holes, data bytes name the byte map's object and position |
| ThinVolumes.ReadByte | crates/warp-block/src/thin.rs:289-351 | each requested byte lies in exactly one range, which is data exactly when the byte is allocated |
| ThinVolumes.ReadReturnsLastWrite | crates/warp-block/src/thin.rs:289-351 | for such callers: after any run a read names, for every byte, the object and position of its latest update |
| ThinVolumes.ThinVolume.Write | crates/warp-block/src/thin.rs:354-375 | read-only and out-of-bounds writes fail; otherwise copy-on-write is reported exactly when a shared extent overlaps |
| ThinVolumes.CowIsPerByte | crates/warp-block/src/thin.rs:366-368 | the sharing test says yes exactly when a byte of the range is shared, an empty shared extent starts inside it, or it is empty and strictly inside a shared extent |
| Snapshots.SharedBytes | crates/warp-block/src/extent.rs:299-314 | a snapshot maps every byte as its source does, up to the shared flag |
| Snapshots.SharedDrift | crates/warp-block/src/extent.rs:309-313 | the copied counter is as right for the snapshot as for the source, for any table |
| Snapshots.BlockSnapshot.FromVolume | crates/warp-block/src/snapshot.rs:35-54 | a snapshot holds its own map, the shared copy of the source's |
| Snapshots.SnapshotThenEdit | crates/warp-block/src/snapshot.rs:35-54 | no run of edits of the source after the snapshot, of any kind, changes the snapshot's table or what it maps |
| Snapshots.NeedsCow | crates/warp-block/src/snapshot.rs:253-268 | true exactly when an extent that overlaps the write is shared |
| Snapshots.SnapshotWriteNeedsCow | crates/warp-block/src/snapshot.rs:253-268 | on a snapshot a non-empty write needs a copy exactly when it touches a mapped byte or an empty extent starts inside it |
| Snapshots.SnapshotManager.CreateSnapshot | crates/warp-block/src/snapshot.rs:124-137 | the snapshot is stored and listed last under its source; every source still lists exactly its snapshots |
| Snapshots.SnapshotManager.DeleteSnapshot | crates/warp-block/src/snapshot.rs:148-158 | an unknown id fails and changes nothing; otherwise the snapshot leaves both indexes and nothing else does |
| Indexes.PushedLast | crates/warp-block/src/snapshot.rs:130-134 | a new entry is listed last under its owner and no other list changes |
| Indexes.WithoutConcat | crates/warp-block/src/snapshot.rs:152-155 | taking an entry off a list keeps the order of the others and how often they occur |
| ThinPools.ThinPool.AllocateChunk | crates/warp-block/src/thin.rs:84-96 | fails exactly when the quota has no room; otherwise hands out an id nobody holds, the most recently freed first |
| ThinPools.ThinPool.FreeChunk | crates/warp-block/src/thin.rs:99-102 | any id goes to the end of the free list and the counter drops, wrapping at 0; the pool stays in order if and only if the id was live |
| ThinPools.GivePartitioned | crates/warp-block/src/thin.rs:193-195 | freeing keeps live and free ids a partition of the ids handed out if and only if the freed id is live |
| ThinPools.DoubleFreeHandsOutTwice | crates/warp-block/src/thin.rs:182-195 | an id freed twice is handed out by each of the next two allocations |
| ThinPools.SpaceTest | crates/warp-block/src/thin.rs:86-91 | the test on bytes is a test on the number of chunks |
| ThinPools.TakeRecycled | crates/warp-block/src/thin.rs:182-187 | a recycled id is not live, and taking it keeps the partition |
| ThinPools.TakeFresh | crates/warp-block/src/thin.rs:188-190 | a fresh id is not live, also when the free list is no longer empty, and taking it keeps the partition |
| ThinPools.StepKeeps | crates/warp-block/src/thin.rs:84-195 | every atomic step of every call, the pop and the fetch_add of an allocation apart, keeps the ids partitioned, the count and the quota bound |
| ThinPools.RunsFromStart | crates/warp-block/src/thin.rs:84-195 | in every interleaving no id is handed out twice and the counter is the live ids plus frees not yet counted |
| ThinPools.QuotaOverRuns | crates/warp-block/src/thin.rs:84-102 | with at most k allocations in flight, allocated bytes never exceed the quota by more than k - 1 chunks |
| ThinPools.QuotaAttained | crates/warp-block/src/thin.rs:84-195 | for every quota with room for a chunk and every k some interleaving reaches that bound |
| Coordination.StepKeeps | crates/portal-net/src/coordinator.rs:137-364 | every locked section keeps the versions increasing and the connected state tied to the latest registration |
| Coordination.UndisturbedIff | crates/portal-net/src/coordinator.rs:157-163 | a registration finds its version unchanged if and only if no other registration has begun since |
| Coordination.ConnectedIsLatest | crates/portal-net/src/coordinator.rs:137-180 | in every interleaving, connected means the address sent to the registration begun last, and its key |
| Coordination.OvertakenNeverCommits | crates/portal-net/src/coordinator.rs:156-179 | in every interleaving, a registration takes effect if and only if none has begun since and an address came; one overtaken changes nothing |
| Coordination.LatestSectionDecides | crates/portal-net/src/coordinator.rs:137-364 | in every interleaving connection, address and heartbeat have the values of the latest section that sets them |
| Coordination.DisconnectedUntilRegistered | crates/portal-net/src/coordinator.rs:353-358 | after a disconnect there is no connection and no address until a registration takes effect |
| Coordination.DisconnectGoesUnnoticed | crates/portal-net/src/coordinator.rs:341-358 | a disconnect that completes while a registration waits is not detected |
| Coordination.HubCoordinator.BeginRegister | crates/portal-net/src/coordinator.rs:140-146 | the first section of a registration is the model's step and returns the version it set |
| Coordination.HubCoordinator.FinishRegister | crates/portal-net/src/coordinator.rs:156-179 | the second section is the model's step and returns the address exactly when the registration takes effect |
| Coordination.HubCoordinator.AcknowledgeHeartbeat | crates/portal-net/src/coordinator.rs:261-264 | a heartbeat changes only its time |
| Coordination.HubCoordinator.AcknowledgeDisconnect | crates/portal-net/src/coordinator.rs:353-358 | the section is the model's step, whose effect on later states is stated above |
| Replication.ReplicationManager.AddPeer | crates/portal-hub/src/replication.rs:172-176 | the peer counts as healthy until three timeouts have passed, and no other peer's health changes |
| Replication.ReplicationManager.RemovePeer | crates/portal-hub/src/replication.rs:179-188 | the peer is forgotten and no chunk lists it |
| Replication.ForgottenHolders | crates/portal-hub/src/replication.rs:179-188 | the other peers hold exactly what they held, of the same tracked chunks |
| Replication.ReplicationManager.RemoveAndRepair | crates/portal-hub/src/replication.rs:179-353 | removing a peer and repairing brings each stored chunk to the smaller of the factor and its other holders plus the healthy peers without it, and loses no other holder |
| Replication.RemovedPeerStaysOut | crates/portal-hub/src/replication.rs:287-310 | requests still queued for a removed peer never record it again |
| Replication.ReplicationManager.HealthyPeers | crates/portal-hub/src/replication.rs:199-205 | exactly the peers that are healthy and not stale when they are looked at, once each |
| Replication.ReplicationManager.UnderReplicatedChunks | crates/portal-hub/src/replication.rs:222-234 | exactly the chunks with fewer holders than the factor, once each, with their count |
| Replication.ReplicationManager.ChooseTargets | crates/portal-hub/src/replication.rs:336-340 | different healthy peers without the chunk, as many as needed or all there are |
| Replication.ReplicationManager.AntiEntropyRepair | crates/portal-hub/src/replication.rs:315-353 | the queue gains, for every tracked chunk, exactly what it lacks as far as healthy non-holders go |
| Replication.PlanEmptyIff | crates/portal-hub/src/replication.rs:319-321 | a repair schedules nothing exactly when no chunk lacks a copy it could get |
| Replication.ReplicationManager.ReplicateChunk | crates/portal-hub/src/replication.rs:287-310 | succeeds exactly for a stored chunk and a known peer, and then records the holder |
| Replication.ReplicationManager.ProcessPending | crates/portal-hub/src/replication.rs:265-284 | the oldest requests, at most the limit, are delivered in order; the result is the number of places with a deliverable request; the rest stay queued |
| Replication.DeliveredHolders | crates/portal-hub/src/replication.rs:265-310 | delivering a queue adds to a stored chunk exactly its targets that are still peers, and nothing to others |
| Replication.RepairReaches | crates/portal-hub/src/replication.rs:315-353 | a delivered plan brings a stored chunk to the smaller of the factor and all holders it could have, changes no other, and leaves nothing to repair |
| Replication.ReplicationManager.RepairAndDrain | crates/portal-hub/src/replication.rs:264-353 | one repair and draining terminates with that result for every tracked chunk |
| RateLimiting.RelayRateLimiter.CheckRateLimit | crates/portal-hub/src/ephemeral_auth.rs:276-296 | the call is the model's call: restart after a full minute, count, pass below the limit |
| RateLimiting.AtMostLimitBetweenResets | crates/portal-hub/src/ephemeral_auth.rs:276-296 | in every interleaving the turns that pass between two resets are those taken, up to the limit |
| RateLimiting.AtMostLimitPerReset | crates/portal-hub/src/ephemeral_auth.rs:276-296 | over any interleaving at most one limit per reset passes, beyond what was left at the start |
| RateLimiting.AtMostTwiceTheLimit | crates/portal-hub/src/ephemeral_auth.rs:276-296 | calls that do not overlap pass at most twice the limit in any half-open 60 seconds |
| RateLimiting.TwiceTheLimitExample | crates/portal-hub/src/ephemeral_auth.rs:282-287 | twice the limit is reached |
| RateLimiting.CallIsRun | crates/portal-hub/src/ephemeral_auth.rs:276-296 | a call that nothing interrupts is a run of the atomic steps with the same effect and answer |
| RateLimiting.AtMostPerSpan | crates/portal-hub/src/ephemeral_auth.rs:276-296 | in every interleaving with at most k calls in flight, at most k + 1 limits pass in any half-open 60 seconds |
| RateLimiting.SpanBoundAttained | crates/portal-hub/src/ephemeral_auth.rs:276-296 | for every limit and every k some interleaving reaches that bound |
| RelayAuthorization.EphemeralRelayAuth.RegisterIdentity | crates/portal-hub/src/ephemeral_auth.rs:377-440 | a known id is refused; otherwise identity, session index and counter are extended and a token issued |
| RelayAuthorization.EphemeralRelayAuth.AuthorizeRelay | crates/portal-hub/src/ephemeral_auth.rs:448-528 | the answer is that of the checks in order, with the token's sponsor and the identity's priority; the limiter and the counters move as the source moves them |
| RelayAuthorization.AllowedOnRegisteredTerms | crates/portal-hub/src/ephemeral_auth.rs:377-528 | in every run a relay is allowed only on the terms of an earlier registration of its id, signed, in time, for an admitted target and payload, and not revoked |
| RelayRuns.AnswerOnTerms | crates/portal-hub/src/ephemeral_auth.rs:448-528 | in every run in which the id was registered and is not revoked, the answer in full: the error of the first term that fails, or a permit with the registration's priority when fewer than the limit have passed in the window |
| RelayRuns.AnswerOtherwise | crates/portal-hub/src/ephemeral_auth.rs:457-476 | a revoked id fails authentication, and one that was never registered is not found |
| RelayRuns.KeptIdentity | crates/portal-hub/src/ephemeral_auth.rs:448-528 | an identity that is not revoked keeps its terms; its limiter moves by its own calls, and its relays and bytes are those allowed |
| RateLimiting.PassesIff | crates/portal-hub/src/ephemeral_auth.rs:276-296 | a call passes exactly when fewer than the limit have passed since the window it finds running started |
| RelayAuthorization.EphemeralRelayAuth.RevokeIdentity | crates/portal-hub/src/ephemeral_auth.rs:535-558 | an unknown id is refused; otherwise it leaves identities and index and enters the revocation list |
| RelayAuthorization.RevokeAllEffect | crates/portal-hub/src/ephemeral_auth.rs:568-570 | revoking a list removes exactly the listed identities and revokes exactly those that existed |
| RelayAuthorization.RevokeSessionEffect | crates/portal-hub/src/ephemeral_auth.rs:561-574 | revoking a session removes and revokes exactly its identities and forgets the session |
| RelayAuthorization.EphemeralRelayAuth.RevokeWholeSession | crates/portal-hub/src/ephemeral_auth.rs:561-574 | returns the session's list and leaves none of the session active |
| RelayAuthorization.EphemeralRelayAuth.CleanupExpiredIdentities | crates/portal-hub/src/ephemeral_auth.rs:577-591 | exactly the identities whose time is up are revoked |
| RelayAuthorization.StepKeeps | crates/portal-hub/src/ephemeral_auth.rs:377-591 | every call keeps the index exact and the counters balanced, and forgets no revocation |
| RelayAuthorization.RunConsistent | crates/portal-hub/src/ephemeral_auth.rs:377-591 | after every run of calls that do not overlap each session lists exactly its identities once, and registrations are revocations plus active identities |
| RelayAuthorization.RevokedForever | crates/portal-hub/src/ephemeral_auth.rs:457-464 | once revoked, by id, session or clean-up, an id is denied after any further run, also when registered again |
| RelayAuthorization.RelayCountExact | crates/portal-hub/src/ephemeral_auth.rs:516-521 | the relay counter is the number of requests allowed |
| RelayAuthorization.RegisteredCountExact | crates/portal-hub/src/ephemeral_auth.rs:387-422 | the registration counter is the number of registrations not refused |
| RelayAuthorization.RevokeAllTimes | crates/portal-hub/src/ephemeral_auth.rs:541-591 | each revoked identity is listed with the time of its own revocation |
| RelayRuns.AllowedIsPassed | crates/portal-hub/src/ephemeral_auth.rs:448-528 | while an identity is active the service allows exactly what its limiter passes |
| RelayRuns.RelaysWithinLimit | crates/portal-hub/src/ephemeral_auth.rs:377-591 | over every run of calls that do not overlap, also with revocation and re-registration, an identity gets at most twice its limit in any 60 seconds |
| RelayOverlaps.SpanOverService | crates/portal-hub/src/ephemeral_auth.rs:377-558 | in every interleaving of registrations, revocations and relays with at most k relays in the limiter, at most k + 1 limits pass in any 60 seconds for every identity stored |
| RelayOverlaps.OneRegistration | crates/portal-hub/src/ephemeral_auth.rs:377-558 | so with one registration at most k + 1 limits pass |
| RelayOverlaps.RevokedRunsDry | crates/portal-hub/src/ephemeral_auth.rs:448-558 | once an id is on the revocation list only relays that had passed the list before are still allowed, each once |
| RelayOverlaps.OvertakenIsAllowed | crates/portal-hub/src/ephemeral_auth.rs:457-464 | such a relay can be allowed on a later registration of the revoked id |
| RelayOverlaps.CountersBalanceIff | crates/portal-hub/src/ephemeral_auth.rs:387-422 | in every interleaving, with none in flight, registrations are revocations plus active identities if and only if no registration stored over a stored identity |
| RelayOverlaps.SerialIsExact | crates/portal-hub/src/ephemeral_auth.rs:377-558 | if registrations and revocations do not overlap each other, index and counters are exact when none is in flight |
| RelayOverlaps.IndexExactIff | crates/portal-hub/src/ephemeral_auth.rs:387-420 | overlapping registrations without revocations leave the index exact if and only if at most one of them stored the identity |
| RelayOverlaps.DoubleRegistration | crates/portal-hub/src/ephemeral_auth.rs:387-422 | two registrations that both look first list and count the identity twice |
| IpAllocation.BitmapAllocator.constructor | crates/portal-net/src/allocator.rs:145-154 | network and hub are taken, the hint is at the first host |
| IpAllocation.BitmapAllocator.WithReserved | crates/portal-net/src/allocator.rs:176-188 | exactly network, hub and the reserved hosts are taken |
| IpAllocation.BitmapAllocator.FindNextAvailable | crates/portal-net/src/allocator.rs:194-202 | the first free host from the hint on, or else the first below it; nothing only if none is free |
| IpAllocation.BitmapAllocator.Allocate | crates/portal-net/src/allocator.rs:212-224 | the lowest free host is taken; it fails exactly when no host is free |
| IpAllocation.BitmapAllocator.Reserve | crates/portal-net/src/allocator.rs:226-251 | refused for network, hub and taken hosts with the matching error; otherwise taken |
| IpAllocation.BitmapAllocator.Release | crates/portal-net/src/allocator.rs:253-268 | network and hub stay taken, any other host becomes free, the hint stays below every free host |
| IpAllocation.BitmapAllocator.AvailableCount | crates/portal-net/src/allocator.rs:274-280 | the count is the true number of free hosts |
| IpAllocation.FreeCount | crates/portal-net/src/allocator.rs:274-280 | the number of free hosts follows from the number of taken ones, so no subtraction saturates |
| IpAllocation.BitmapAllocator.ReleaseThenAllocate | crates/portal-net/src/allocator.rs:212-268 | a released host below every free one is handed out next and restores the allocator |
| AccessControl.AccessControlList.GetAccessLevel | crates/portal-core/src/access.rs:302-362 | the highest level among matching grants whose conditions hold, none exactly when there is none |
| AccessControl.AccessControlList.CheckAccess | crates/portal-core/src/access.rs:288-298 | true exactly when some grant that counts has at least the required level |
| AccessControl.GrantGives | crates/portal-core/src/access.rs:248-362 | a new grant gives its level and all lower ones to exactly the accessor it names, while its conditions hold, a link's own password first |
| AccessControl.LevelOrder | crates/portal-core/src/access.rs:10-23 | the order of the levels |
| AccessControl.ConditionsCompose | crates/portal-core/src/access.rs:88-131 | a grant without restrictions always holds, and each restriction narrows it by exactly its own test |
| AccessControl.NetworkMatchesIff | crates/portal-core/src/access.rs:139-145 | an address matches a network exactly when it starts with the network's digits without trailing zeros and suffix |
| AccessControl.AccessControlList.RevokeTarget | crates/portal-core/src/access.rs:253-284 | all grants of one identity, link or email go, the others stay in order, and the number removed is returned |
| AccessControl.RetainedConcat | crates/portal-core/src/access.rs:253-284 | the grants that stay keep their order and how often each occurs |
| AccessControl.RevokeIsExact | crates/portal-core/src/access.rs:253-284 | revoking takes all access from its target and none from any other accessor |
| AccessControl.AccessControlList.RecordAccess | crates/portal-core/src/access.rs:371-403 | the first grant that can be charged is charged, no other changes |
| AccessControl.RecordNeverWidens | crates/portal-core/src/access.rs:134-136 | recording a use gives no one access that they did not have |
| AccessControl.RecordKeepsAccess | crates/portal-core/src/access.rs:134-136 | and takes access from no one unless it is the last use of a grant |
| AccessControl.RunNeverWidens | crates/portal-core/src/access.rs:248-403 | over any run access comes only from the grants given before or in it |
| AccessControl.RecordSpends | crates/portal-core/src/access.rs:371-403 | recording spends one use of the accessor's budget if and only if some matching grant can be charged |
| AccessControl.RecordOther | crates/portal-core/src/access.rs:371-403 | recording for one accessor leaves every other accessor's budget alone |
| AccessControl.BudgetIsSpent | crates/portal-core/src/access.rs:240-403 | over any run of rounds, new grants and revocations, paid rounds and remaining uses never exceed the uses granted to all accessors that match the grants, and equal them without revocations |
| AccessControl.NoneUnpaid | crates/portal-core/src/access.rs:383-396 | a round is unpaid only for a link that carries a password of its own |
| AccessControl.SpentStaysOut | crates/portal-core/src/access.rs:89-403 | once all grants of an accessor have expired or are used up it is not let in again over any run that gives it no new grant |
| AccessControl.LinkPasswordExample | crates/portal-core/src/access.rs:383-396 | a link with its own password is let in without being charged |
| KittenScans.ScanExact | crates/warp-chonkers/src/simd.rs:69-89 | the scan lists exactly the local minima, ascending, never two neighbours, each with its lighter side |
| KittenScans.ScanLists | crates/warp-chonkers/src/simd.rs:69-89 | an index is listed exactly when it is an inner one and lighter than both neighbours |
| KittenScans.FindKittensScalar | crates/warp-chonkers/src/simd.rs:69-89 | returns that scan |
| KittenScans.FindLocalMinima4 | crates/warp-chonkers/src/simd.rs:134-160 | bit j is set exactly when lane j is a local minimum |
| KittenScans.FindKittensAvx2 | crates/warp-chonkers/src/simd.rs:196-258 | the four-wide scan with its tail loop returns what the scalar scan returns |
| KittenScans.FindLocalMinima2 | crates/warp-chonkers/src/simd.rs:285-318 | bit j is set exactly when lane j is a local minimum |
| KittenScans.FindKittensNeon | crates/warp-chonkers/src/simd.rs:331-379 | the two-wide scan with its tail loop returns what the scalar scan returns |
| Boundaries.SizesAddUp | crates/warp-chonkers/src/layer.rs:51-158 | chunk sizes add up to the stretch between first and last boundary |
| Boundaries.RemoveInner | crates/warp-chonkers/src/layer.rs:110-120 | removing an inner boundary keeps both ends, the order, and every other boundary with its weight |
| Layers.Layer.FindKittens | crates/warp-chonkers/src/layer.rs:58-92 | exactly the undersized inner chunks whose right boundary is lighter than both sides, ascending |
| Layers.LayerKittenIff | crates/warp-chonkers/src/layer.rs:58-92 | that is, lighter than the next boundary and than one of the two to the left |
| Layers.Layer.MergeKitten | crates/warp-chonkers/src/layer.rs:97-121 | an inner chunk becomes one with the neighbour on the side of the lighter far boundary; no other boundary or weight changes |
| Layers.MergeKeepsEndsIff | crates/warp-chonkers/src/layer.rs:97-121 | merging any chunk keeps the data's ends, except the last chunk when its left boundary has the greatest weight |
| Layers.MergeCutsOffEnd | crates/warp-chonkers/src/layer.rs:34-121 | with computed weights: for boundaries past the end of the data such a merge drops the last boundary |
| Layers.Layer.MergeAllKittens | crates/warp-chonkers/src/layer.rs:58-121 | finding and merging ends, keeps the ends and the total size, and leaves no kitten |
| BalancingPhase.RuntsExact | crates/warp-chonkers/src/phases/balancing.rs:79-124 | the list holds exactly the kittens, at least two apart |
| BalancingPhase.RuntIff | crates/warp-chonkers/src/phases/balancing.rs:88-120 | a kitten is any chunk but the last that is undersized with a right boundary lighter than the next and the previous one |
| BalancingPhase.FindKittens | crates/warp-chonkers/src/phases/balancing.rs:79-124 | returns that list |
| BalancingPhase.MergeKitten | crates/warp-chonkers/src/phases/balancing.rs:127-153 | an inner chunk becomes one with the neighbour on the side of the lighter far boundary, and no other chunk changes; returned as a new value |
| BalancingPhase.MergedCoarsens | crates/warp-chonkers/src/phases/balancing.rs:127-153 | merging keeps the ends and, with room to the right, removes exactly one boundary |
| BalancingPhase.RoundCoarsens | crates/warp-chonkers/src/phases/balancing.rs:42-48 | a round keeps the ends and drops one inner boundary for every kitten but the first chunk |
| BalancingPhase.RoundExact | crates/warp-chonkers/src/phases/balancing.rs:42-48 | one round in full: each kitten but the first chunk loses exactly one of its own two boundaries, the one towards the lighter far boundary in the result, and every boundary of no such kitten stays |
| BalancingPhase.RoundsKeepOthers | crates/warp-chonkers/src/phases/balancing.rs:28-53 | a boundary that in no round belongs to a kitten other than the first chunk is in the result |
| BalancingPhase.MergeRound | crates/warp-chonkers/src/phases/balancing.rs:42-48 | merges the round's kittens from right to left and reports whether there was one to merge |
| BalancingPhase.RoundsCoarsen | crates/warp-chonkers/src/phases/balancing.rs:28-53 | the rounds return a coarser chunking of the same data |
| BalancingPhase.RoundsSettle | crates/warp-chonkers/src/phases/balancing.rs:28-53 | with at most three boundaries more than rounds, no kitten is left but possibly the first chunk |
| BalancingPhase.LargeFirstChunk | crates/warp-chonkers/src/phases/balancing.rs:28-53 | if the first chunk was large enough, a settled result has no kitten at all |
| BalancingPhase.SettledStays | crates/warp-chonkers/src/phases/balancing.rs:28-53 | a settled chunking is returned as it is, so a kitten remains exactly when its first chunk is one |
| BalancingPhase.FirstKittenStays | crates/warp-chonkers/src/phases/balancing.rs:42-48 | an undersized first chunk lighter than every later boundary is still a kitten after any number of rounds |
| BalancingPhase.NoneRemainIff | crates/warp-chonkers/src/phases/balancing.rs:20-54 | with enough rounds, no kitten remains whatever the hashed weights are, if and only if the first chunk is large enough or ends at the end of the data |
| BalancingPhase.LimitLeavesKitten | crates/warp-chonkers/src/phases/balancing.rs:31-33 | short data with falling weights and more than n + 3 boundaries still has a kitten other than the first chunk after n rounds |
| BalancingPhase.InitialFalls | crates/warp-chonkers/src/phases/balancing.rs:57-68 | the phase starts that way on short data whose hashes fall from left to right |
| BalancingPhase.EnoughRoundsIff | crates/warp-chonkers/src/phases/balancing.rs:20-54 | for boundaries from the start to the end of data shorter than the minimum, n rounds leave at most the first chunk a kitten whatever the hashed weights are, if and only if there are at most n + 3 boundaries |
| BalancingPhase.ThousandRounds | crates/warp-chonkers/src/phases/balancing.rs:31-33 | so with the limit of the source short data is sure to settle if and only if it has at most 1003 boundaries |
| Boundaries.ComputeWeights | crates/warp-chonkers/src/phases/balancing.rs:57-68 | the ends get the greatest weight, inner boundaries the weight of the data around them |
| BalancingPhase.Process | crates/warp-chonkers/src/phases/balancing.rs:20-54 | short lists are returned as they are; otherwise the result is that of the rounds, with the ends and all boundaries of no kitten kept, and the kittens gone as stated |

## Left out

- `ThinVolume::write` only reports whether a copy is needed and edits no map. The writes of `LastWriterWins` and
  `ReadReturnsLastWrite` are a protocol for callers, clearing a range before inserting over it, which no code here follows.
- Arithmetic past 64 bits: an offset plus a length, or a version or counter, that would exceed the range of `u64`.
- The lock around an extent map is not modelled; each call is one atomic step, as the write lock makes it.
- Flag bits of an extent other than the four named ones, and the operations on the dirty bit, which would be easy members.
- The volume table of a pool, connection counts, children lists and watermarks: each is a plain field update.
- Pending copy-on-write operations: insertions into and removals from a map by key.
- The coordinator's peer list, hole punching and relaying, which do not touch the registration state; the subnet test that
  `register` makes first; a transport error, which is a registration that never finishes.
- The unused source field of a replication request, recording a chunk under the local id, peer heartbeats, marking
  stale peers, and the worker's timing.
- In `RelayOverlaps`, the whole list of a session that `revoke_session` drops after it has revoked its identities.
- What a lookup or a read means on a table with overlapping extents; the byte map is defined for well-formed maps.
- The glob patterns for relay channels, which no authorization calls.
- Chunk weights are not tied to the data they are hashed from.
- `compute_priorities_4` and the scalar priorities, which do not agree and are used by neither scan.
- The remaining phases, the tree and the deduplication of the chunker; the storage, network, API and command-line crates.
