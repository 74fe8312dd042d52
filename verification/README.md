# Room synchronisation core

A Dafny model of the room runtime of the realtime room middleware: the single-writer tick loop, the K-Means
cluster allocator, delta replication, the grid spatial hash, lease locks, and the start/stop protocol.

Each stateful part appears twice. A *specification* gives the state as a value and every operation as a function on
it; the theorems about whole runs are proved of that. A *class* (or a method on arrays) works the way the runtime
does, in place, and its contract ties the new state to the specification function. `RoomRuntime.TickIsRun` closes the
loop: a tick of the class continues a run of the specification. What the specification's own steps amount to is pinned by
histories (`LockHistory.dfy`, `RoomHistory.dfy`): each table is read off the events or actions alone and proved to agree.

| file | contents |
|---|---|
| `Common.dfy`, `Geometry.dfy` | identifiers, uint32 arithmetic, the XZ plane |
| `KMeans.dfy` | the allocator as functions |
| `KMeansDescent.dfy`, `KMeansConvergence.dfy`, `KMeansOrder.dfy`, `KMeansHysteresis.dfy`, `KMeansOutput.dfy`, `KMeansPlacement.dfy` | its theorems |
| `KMeansAllocator.dfy` | the allocator on arrays, with its retained output |
| `SpatialHash.dfy` | the grid index and radius interest |
| `Locks.dfy`, `LockRuns.dfy`, `LockHistory.dfy`, `LockManager.dfy` | lock table, theorems over runs, the table read off its events, the managers as classes |
| `Delta.dfy` | player records, snapshots, deltas, the client |
| `RoomModel.dfy` | the room as a transition system |
| `RoomInvariants.dfy`, `RoomHistory.dfy`, `ClusterSchedule.dfy`, `RoomOrder.dfy`, `Replication.dfy`, `Cadence.dfy` | theorems over room runs |
| `Rejoin.dfy` | a run that breaks replication by reusing a player ID between two broadcasts |
| `Room.dfy` | the room as a class |
| `Lifecycle.dfy` | Start, Stop, Enqueue and the tick goroutine interleaved |

Modelling decisions:

- Coordinates, sums and means are reals. Euclidean distances are compared through their squares; the hysteresis test on
  square roots is rewritten exactly, and `Geometry.StaysWithinIsDistanceTest` proves the rewriting.
- Go's map iteration order and the unstable library sort are nondeterministic: they enter as parameters (`order`,
  `sorted`) constrained only to be possible, or as arbitrary choices in loops.
- Ticks and versions wrap at 2^32. Times are unbounded integers in nanoseconds. Server clock readings are parameters.
- `RoomModel.Action` sequences need not alternate begin, commands and end; the theorems hold for all of them, which
  includes every real run; only the tick count of `ClusterSchedule.RecomputeBounds` needs whole ticks, which
  `RoomRuntime.TickIsWhole` provides. Object creation by management code may fall anywhere.
- Hypotheses about a run (no ID reuse between broadcasts, timely stamps, whole ticks, ...) are predicates computed along the run.

Where the code falls short of the natural statement, the exact condition is proved:

- The K-Means loop can stop after its first round without having converged: `KMeansConvergence.ConvergedExactly` says
  precisely when, `FirstRoundExitCanMissConvergence` shows an input.
- Past MaxPlayersPerRoom the map order decides who is clustered: `KMeansOrder.OrderIrrelevantExactly`, and for rooms
  `RoomOrder.RoomOrderIndependent` with `RoomOrder.OrderMattersPastLimit`.
- A grant over a lapsed, unswept lock, and removal of a locked object, leave a counter too high:
  `LockRuns.ExactUnlessLeak`; `LockRuns.LapsedGrantLeaks` reaches it from an empty table. It stays too high by exactly
  the leaks so far (`LockRuns.CountsAccounted`), which can lock a user out for good (`LockRuns.LeakedOutForGood`).
- The owner's own renewal with an early stamp shortens its lease: `LockRuns.LeaseCutExactly`,
  `LockRuns.EarlyRenewalCutsLease`.
- A delta leaves the client current if and only if equal versions mean equal states:
  `Delta.DeltaSynchronisesExactly`, and for runs `Replication.ReplicaExactlyWhen`. A player ID that rejoins after a
  broadcast has passed without it is safe (`Replication.ReplicaExact`); one that rejoins between two broadcasts can
  leave a client with its former position: `Rejoin.RejoinGoesUnnoticed`.
- A join onto an attached session inflates the player counter by one (`RoomInvariants.PlayerCountAccounted`); if the session's
  user was named, that user is locked out for good, and only then does the user index stop being exact
  (`RoomInvariants.IndexIsBijection`, `RoomInvariants.StrandedStaysOut`).
- At one broadcast a second, a window of ticks that crosses the wrap of the counter can hold two; the exact windows are in
  `Cadence.BroadcastCadence`, an instance in `Cadence.WrapAddsOne`.
- A player that has moved out of the world sees nobody and is still seen where it was last inside:
  `RoomInvariants.RadiusVisibility`, `RoomInvariants.OutsiderIsSeen`.
- A Stop loses the commands that are still queued: `Lifecycle.ExitLosesQueue`, `Lifecycle.StopLosesAccepted`.
- A cancelled parent context, and nothing else, leaves a room that says Running without a lasting loop, and it accepts
  commands: `Lifecycle.LifecycleSound`, `Lifecycle.ParentCancelLeavesRunning`.
- The doc comment of `AcquireLock` says that a lapsed lock must have been swept first; the code grants over an unswept one too. The model
  follows the code.

## Model

| member | source | states |
|---|---|---|
| `KMeansDescent.RoundDescends` | internal/game/cluster/kmeans.go:64-70 | neither half of a round (reassign, recentre) raises the total squared distance |
| `KMeansDescent.AssignDescends` | internal/game/cluster/kmeans.go:165-175 | nearest assignment costs no more than any other, and at equal cost raises no cluster index |
| `KMeansDescent.MeanIsOptimal` | internal/game/cluster/kmeans.go:191-197 | moving a centroid to its members' mean saves exactly count times the squared distance moved |
| `KMeansDescent.RecentreDescends` | internal/game/cluster/kmeans.go:179-200 | recentring all clusters at once, empty ones kept, does not raise the cost |
| `KMeansDescent.ChangingRoundDescends` | internal/game/cluster/kmeans.go:64-70 | after the first round, a round that changes an assignment lowers (cost under own means, index sum) lexicographically |
| `KMeansDescent.NoAssignmentRepeats` | internal/game/cluster/kmeans.go:64-70 | while rounds keep changing something, no assignment vector recurs |
| `KMeansDescent.SettlesWithoutCap` | internal/game/cluster/kmeans.go:64-70 | any budget above K^n lets the loop stop by itself |
| `KMeansDescent.BudgetIrrelevantOnceSettled` | internal/game/cluster/kmeans.go:64-70 | once the loop settles, a larger MaxIterations gives the same result |
| `KMeansConvergence.FirstRoundExit` | internal/game/cluster/kmeans.go:61-70 | the loop stops on its first round if and only if all K seeds are one position |
| `KMeansConvergence.ConvergedExactly` | internal/game/cluster/kmeans.go:64-70 | a loop that stopped by itself has everyone at the lowest-index nearest centroid and all centroids at means, if and only if it is not a first-round exit with K >= 2 on seeds away from the overall mean |
| `KMeansConvergence.AlwaysAtMeans` | internal/game/cluster/kmeans.go:64-70 | however the loop ended, every non-empty cluster's centroid is its exact mean |
| `KMeansConvergence.FirstRoundExitCanMissConvergence` | internal/game/cluster/kmeans.go:64-70 | three players with which the loop stops unconverged |
| `KMeansOrder.OrderIndependent` | internal/game/cluster/kmeans.go:46-79 | permuting an input of distinct IDs within MaxPlayersPerRoom changes neither K, assignments, centroids nor any member set |
| `KMeansOrder.SortUnique` | internal/game/cluster/kmeans.go:147-159 | seeding is deterministic: distinct IDs have one sorted order, whatever the sort does |
| `KMeansOrder.MembersPermuted` | internal/game/cluster/kmeans.go:184-189 | member counts and coordinate sums do not depend on the order of players |
| `KMeansOrder.OrderIrrelevantExactly` | internal/game/cluster/kmeans.go:46-79 | for distinct IDs the output is the same under every order of the input if and only if the named players fit MaxPlayersPerRoom |
| `KMeansOrder.TruncationDependsOnOrder` | internal/game/cluster/kmeans.go:116-118 | any input of distinct IDs past MaxPlayersPerRoom has a reordering that admits a different set of players |
| `KMeansHysteresis.AntiFlicker` | internal/game/cluster/kmeans.go:72-78 | from any prior state, repeating one input with hysteresis > 0 fixes every player's centroid position from the second call and every cluster ID from the third |
| `KMeansHysteresis.AntiFlickerAnyOrder` | internal/game/cluster/kmeans.go:217-247 | the same when every call lists the players in another order |
| `KMeansHysteresis.ReassignmentRule` | internal/game/cluster/kmeans.go:234-245 | a known player takes the new centroid exactly when it is closer by more than the margin, else the one nearest to its previous centroid |
| `KMeansPlacement.NewcomerPlacement` | internal/game/cluster/kmeans.go:217-228 | a player without a previous assignment, and everyone without previous output or hysteresis, is assigned where the loop put it |
| `KMeansPlacement.NewcomerNearest` | internal/game/cluster/kmeans.go:46-79 | in the converged case such a player is in the cluster whose centroid, among the output's own, is nearest to it, lowest index first |
| `KMeansPlacement.KnownPlacement` | internal/game/cluster/kmeans.go:230-245 | in the output, a known player is at the loop's choice if that is closer than its previous centroid by more than the margin, else at the output's centroid nearest to the previous one |
| `KMeansPlacement.SeedsAreLowestIDs` | internal/game/cluster/kmeans.go:147-159 | the i-th seed is the position of the player with exactly i smaller IDs |
| `KMeansPlacement.PrecedesIsLexicographic` | internal/game/cluster/kmeans.go:150-152 | IDs are compared lexicographically: first difference decides, a proper prefix comes first |
| `KMeansPlacement.LoopEnds` | internal/game/cluster/kmeans.go:64-70 | a Compute call ends its loop unchanged or after exactly MaxIterations rounds, and unchanged if MaxIterations exceeds K^n |
| `KMeansPlacement.LonelySeedStays` | internal/game/cluster/kmeans.go:179-200 | a cluster that attracts nobody in n rounds still has its seed for centroid |
| `KMeansPlacement.ListsKeepOrder` | internal/game/cluster/kmeans.go:272-276 | every cluster lists its members in the order of the input |
| `Geometry.StaysWithinIsDistanceTest` | internal/game/cluster/kmeans.go:235-240 | the squared form of the hysteresis test equals the test on distances |
| `KMeansOutput.ClusteringPartitions` | internal/game/cluster/kmeans.go:260-279 | on distinct IDs Clusters is the exact inverse of Assignments, IDs lie in [0,K), centroids cover [0,K), and (K-1)*target < n <= K*target |
| `KMeansOutput.ClusteringInRange` | internal/game/cluster/kmeans.go:229-232 | every retained output has a centroid for each assignment, so the missing-previous-centroid branch is never taken |
| `KMeans.ClusterCount` | internal/game/cluster/kmeans.go:131-140 | K is the ceiling of n / target, and lies in [1, n] |
| `KMeans.NearestIsNearest` | internal/game/cluster/kmeans.go:291-302 | the chosen index is the lowest among the nearest centroids |
| `KMeansAllocator.FilterValidPlayers` | internal/game/cluster/kmeans.go:106-121 | the loop keeps the named players in order, up to the limit |
| `KMeansAllocator.InitCentroids` | internal/game/cluster/kmeans.go:147-159 | the centroids are the positions of the first K players of some sort by ID |
| `KMeansAllocator.NearestCentroidIndex` | internal/game/cluster/kmeans.go:291-302 | the loop returns the lowest-index nearest centroid |
| `KMeansAllocator.AssignNearest` | internal/game/cluster/kmeans.go:165-175 | every slot ends at its player's nearest centroid; the flag says whether any slot changed |
| `KMeansAllocator.RecomputeCentroids` | internal/game/cluster/kmeans.go:179-200 | every non-empty cluster's slot becomes its mean, the others stay |
| `KMeansAllocator.ApplyHysteresis` | internal/game/cluster/kmeans.go:217-247 | the in-place pass applies the reassignment rule to every player |
| `KMeansAllocator.RunLloyd` | internal/game/cluster/kmeans.go:64-70 | the loop on slices reaches the outcome of the iteration the theorems are about |
| `KMeansAllocator.MakeOutput` | internal/game/cluster/kmeans.go:260-279 | the record built in loops is the specified one |
| `KMeansAllocator.KMeansClusterAllocator.Compute` | internal/game/cluster/kmeans.go:46-79 | an invalid config is refused and nothing retained; otherwise the result is the clustering of the valid players against the retained output, and is retained |
| `SpatialHash.GridSpatialHash.Update` | internal/game/spatial/hash.go:58-82 | in-bounds positions are recorded, others refused without effect; both maps stay in agreement |
| `SpatialHash.GridSpatialHash.Remove` | internal/game/spatial/hash.go:85-92 | the entity disappears from both maps |
| `SpatialHash.GridSpatialHash.Clear` | internal/game/spatial/hash.go:145-152 | the index is empty |
| `SpatialHash.GridSpatialHash.QueryRadius` | internal/game/spatial/hash.go:106-137 | returns, without duplicates, exactly what a brute-force distance scan returns |
| `SpatialHash.DropConsistent` | internal/game/spatial/hash.go:159-168 | taking an entity out of its cell, dropping an emptied cell, keeps the two maps in agreement |
| `SpatialHash.PutConsistent` | internal/game/spatial/hash.go:74-81 | placing an entity keeps the two maps in agreement |
| `SpatialHash.WindowCovers` | internal/game/spatial/hash.go:114-121 | the square of cells searched covers the whole disc |
| `Interest.QueryVisiblePlayers` | internal/game/interest/manager.go:45-58 | everyone within the visual radius except the viewer, once each |
| `LockRuns.LocksStayCapped` | internal/game/object/lock.go:63-72 | in every run, whatever the timestamps, a user holds at most its counter, which is at most max(0, MaxLocksPerUser) |
| `LockRuns.ExactUnlessLeak` | internal/game/object/lock.go:45-151 | from exact counters a step keeps them exact if and only if it neither grants over a lapsed lock nor removes a locked object |
| `LockRuns.LapsedGrantLeaks` | internal/game/object/lock.go:53-72 | a run from an empty table after which a user is charged for an object it no longer holds |
| `LockRuns.CountsAccounted` | internal/game/object/lock.go:45-151 | in every run, whatever the stamps, a counter is the number of objects held plus the leaks ever charged to the user, so no leak is repaired |
| `LockRuns.LeakedOutForGood` | internal/game/object/lock.go:63-66 | a user charged MaxLocksPerUser leaks is granted no lock in any continuation |
| `LockRuns.TimelyRunsCountExactly` | internal/game/object/lock.go:111-120 | when commands after a sweep at T are stamped in (T-TTL, T] and no locked object is removed, counters always equal holdings |
| `LockRuns.LeaseGuarantee` | internal/game/object/lock.go:45-74 | an object granted to A at t is A's at every time before t+TTL, through every run in which A neither releases it, nor renews it with a stamp before t, nor loses its session, and neither a sweep nor an acquire of it is stamped past t+TTL |
| `LockRuns.LeaseCutExactly` | internal/game/object/lock.go:80-134 | a step ends a lease before its deadline if and only if it is one of the listed events |
| `LockRuns.EarlyRenewalCutsLease` | internal/game/object/lock.go:80-91 | a run in which the owner's own renewal, stamped before the grant, lets a sweep take the object before the granted deadline |
| `LockRuns.OthersCannotTouch` | internal/game/object/lock.go:53-62 | while a lease runs, no run of sweeps and other users' acquires, refreshes and releases changes the object |
| `LockRuns.DepartedHoldNothing` | internal/game/object/lock.go:125-134 | after a session ends nothing is locked under it until it acquires again |
| `LockRuns.VersionTracksChange` | internal/game/object/types.go:79-79 | along a run that keeps an object and alters it fewer than 2^32 times, its version returns to the old value if and only if at most the expiry has changed |
| `LockHistory.TableFollowsHistory` | internal/game/object/lock.go:45-151 | in every run the table shows each object's holder, session and expiry as its last grant or renewal in force left them, and the content it was created with and last given |
| `LockHistory.AnswersFollowHistory` | internal/game/object/lock.go:45-106 | every acquire, refresh and release is answered, reason included, by what the history says: presence, activity, holder, and holdings plus leaks against the limit |
| `LockHistory.TimelyRunsLeakNothing` | internal/game/object/lock.go:63-66 | with timely stamps no leak is ever charged, so the limit is on what the user really holds |
| `LockHistory.RenewalGuarantee` | internal/game/object/lock.go:80-91 | an object renewed by its owner at r is the owner's at every time before r+TTL, through the runs a granted lease survives |
| `LockHistory.VersionFromCreation` | internal/game/object/manager.go:17-29 | an object starts at version 0, and its version counts its alterations since, refreshes excepted |
| `Locks.ReleaseOneMore` | internal/game/object/lock.go:142-151 | clearing locks one by one gives the same table in any order |
| `LockManagement.LockManager.AcquireLock` | internal/game/object/lock.go:45-74 | result and table are those of the specified acquire |
| `LockManagement.LockManager.RefreshLock` | internal/game/object/lock.go:80-91 | result and table are those of the specified refresh |
| `LockManagement.LockManager.ReleaseLock` | internal/game/object/lock.go:96-106 | result and table are those of the specified release |
| `LockManagement.LockManager.ReleaseExpired` | internal/game/object/lock.go:111-120 | exactly the lapsed locks are cleared and listed once, each owner's counter losing its share |
| `LockManagement.LockManager.ReleaseBySession` | internal/game/object/lock.go:125-134 | exactly the session's locks are cleared and listed once |
| `LockManagement.LockManager.ClearLock` | internal/game/object/lock.go:142-151 | the lock is cleared, its owner's counter lowered and dropped at zero |
| `LockManagement.ObjectManager.CreateObject` | internal/game/object/manager.go:17-29 | a new object starts active and unlocked; an existing ID is refused |
| `LockManagement.ObjectManager.UpdateTransform` | internal/game/object/manager.go:59-67 | the transform is set and the version bumped |
| `LockManagement.ObjectManager.UpdateCustomState` | internal/game/object/manager.go:70-78 | the custom state is set and the version bumped |
| `LockManagement.ObjectManager.MarkObjectInactive` | internal/game/object/manager.go:82-93 | an active object becomes inactive with a version bump; an inactive one is unchanged |
| `LockManagement.ObjectManager.RemoveObject` | internal/game/object/manager.go:96-98 | the object is gone, the counters untouched |
| `Players.PlayerState.UpdateTransform` | internal/game/player/player.go:88-95 | position and rotation are those given, the tick is the server tick, and the version advances by one, wrapping |
| `Delta.BuildPlayerDelta` | internal/game/delta/builder.go:27-83 | enters, updates and leaves each list exactly the changed players once, and the snapshot is brought up to date in place |
| `Delta.BuildEntersAndUpdates` | internal/game/delta/builder.go:42-70 | the pass over visible players sorts each into enter, update or neither and records the version sent |
| `Delta.BuildLeaves` | internal/game/delta/builder.go:73-80 | the snapshot entries no longer visible are listed once and deleted |
| `Delta.DeltaKeepsTracking` | internal/game/delta/builder.go:27-83 | a client that applies a delta holds the players and versions its snapshot records |
| `Delta.DeltaNamesChanges` | internal/game/delta/builder.go:42-80 | seen from the client: enters are exactly the visible players it lacks, updates those it holds at another version, leaves those it holds and no longer sees, each once and current |
| `Delta.DeltaSynchronisesExactly` | internal/game/delta/builder.go:50-68 | after a delta the client holds exactly its visible players in current state if and only if equal versions meant equal states |
| `Delta.SnapshotCache.GetOrCreate` | internal/game/delta/snapshot.go:39-46 | an existing snapshot is returned, else a fresh empty one is installed |
| `Delta.SnapshotCache.Remove` | internal/game/delta/snapshot.go:49-51 | the session's snapshot is gone, the others kept |
| `Replication.ReplicaExact` | internal/game/room/room.go:360-414 | in every run in which no joining player ID is in the room or was at the last broadcast, leaves name their own player and versions do not wrap, each client holds after every broadcast exactly its visible players with current transforms and versions |
| `Replication.ReplicaExactlyWhen` | internal/game/delta/builder.go:50-68 | after every broadcast of every run, rules or not, a served client holds exactly its visible players in current state if and only if its earlier entries carried no current version of a visible player in another state |
| `Replication.ReplicaConsistent` | internal/game/delta/builder.go:27-83 | in every run each session's snapshot describes what its client holds |
| `Rejoin.RejoinGoesUnnoticed` | internal/game/player/player.go:73-73 | a run of two ticks, every batch delivered, after which a client shows a rejoined player at its former position: the player is visible, elsewhere, and back at the version last sent |
| `Rejoin.EveryRunCanBeSent` | internal/game/delta/builder.go:27-83 | every run has batches that satisfy what the builder promises, so the replication theorems speak of every run |
| `RoomInvariants.TablesStayLinked` | internal/game/room/tick.go:199-401 | for every action sequence: index and players have the same keys, snapshots and attached sessions too, dirty players are present, no user is attached twice |
| `RoomInvariants.PlayerCountAccounted` | internal/game/room/tick.go:214-221 | the player counter is the number of attached sessions plus the number of overwriting joins |
| `RoomInvariants.IndexIsBijection` | internal/game/room/tick.go:201-259 | after any run the user index is a bijection with attached non-anonymous sessions if and only if no join was ever accepted onto the session of a named user |
| `RoomInvariants.IndexStep` | internal/game/room/tick.go:201-259 | from an exact index a step keeps it exact if and only if it is no such join |
| `RoomInvariants.OverwriteStrandsUser` | internal/game/room/tick.go:204-220 | an overwritten named user stays indexed while attached nowhere |
| `RoomInvariants.StrandedStaysOut` | internal/game/room/tick.go:204-212 | such a user stays so, and its joins are refused, in every continuation of the run |
| `RoomInvariants.IndexFollowsPlayers` | internal/game/room/tick.go:350-359 | after any run a present player is indexed where it is if and only if it is inside the world |
| `RoomInvariants.RadiusVisibility` | internal/game/room/room.go:393-402 | in radius mode, after any run, p sees q exactly when p is in the world and q's indexed position is within the radius; of two players in the world that is their distance; sight is one-sided exactly when one has left the world and its last position inside is within the other's radius |
| `RoomInvariants.OutsiderIsSeen` | internal/game/room/tick.go:350-359 | a run after which one player sees another who sees nobody |
| `RoomInvariants.RoomLocksAreARun` | internal/game/room/tick.go:270-273 | the room's lock table is a run of the lock events of its sweeps, commands and departures |
| `RoomInvariants.RoomLockCounts` | internal/game/room/tick.go:138-146 | in any room a counter is holdings plus leaks and respects the cap; with timely stamps it is exactly the holdings |
| `RoomInvariants.RoomLeaseGuarantee` | internal/game/room/tick.go:407-490 | an object a command grants to a user at g stays that user's at every time before g+TTL, through ticks begun before g+TTL and all commands but late acquires of it, the user's own release or early-stamped renewal, and the end of the recorded session |
| `RoomHistory.PlayersFollowHistory` | internal/game/room/tick.go:225-401 | after every run a player is in the room exactly when it joined and was not removed since, with the position and rotation of its last effective movement command, the tick that handled it, and the number of those commands modulo 2^32 as version |
| `RoomHistory.TickIsCount` | internal/game/room/tick.go:48-51 | the tick counter is the number of ticks begun, modulo 2^32 |
| `RoomHistory.SessionsFollowHistory` | internal/game/room/tick.go:201-297 | after every run a session is attached as its last accepted join says, until it leaves or disconnects |
| `RoomHistory.JoinAnswered` | internal/game/room/tick.go:201-239 | unless somebody was stranded, a join is accepted exactly when its user is anonymous or not attached; accepted, it seats the session and spawns the player at version 0; refused, it changes nothing |
| `RoomHistory.DirtyFollowsHistory` | internal/game/room/tick.go:167-175 | after every run the dirty players are those moved since the last broadcast and not removed since |
| `RoomHistory.ObjectsFollowHistory` | internal/game/room/tick.go:407-527 | after every run each object is held and filled as the acquire, refresh, release and update commands, the departures and the sweeps say |
| `RoomHistory.DepartedSessionHoldsNothing` | internal/game/room/tick.go:270-273 | after a leave or disconnect nothing is locked under the session, in every continuation in which it does not acquire |
| `RoomHistory.RoomRenewalGuarantee` | internal/game/room/tick.go:436-462 | a refresh command by the holder at r keeps the object the holder's at every time before r+TTL, through the continuations a granted lease survives |
| `RoomHistory.AllocatorRemembersClusters` | internal/game/room/tick.go:110-124 | the allocator's previous output is always the room's current clusters, or there were none yet |
| `ClusterSchedule.ClusterVisibility` | internal/game/room/room.go:377-392 | at the end of every tick the clusters cover exactly the players; visibility is sharing a cluster: symmetric, without self, without the departed |
| `ClusterSchedule.ClustersStayKnown` | internal/game/room/tick.go:66-124 | after every tick of a clustering room the output partitions the named players, up to the limit, whatever the commands |
| `ClusterSchedule.VisibleArePresent` | internal/game/room/room.go:375-402 | whatever the configuration, a broadcast names only players in the room |
| `ClusterSchedule.RecomputeBounds` | internal/game/room/tick.go:66-89 | after every tick of a run of whole ticks, however often the counter wrapped, fewer than R ticks have begun since the last recompute, and m moves displaced a player by at most m * MovementThreshold |
| `ClusterSchedule.TicksCounted` | internal/game/room/tick.go:72-76 | the wrapping difference the interval trigger reads is always the true number of ticks since the last recompute |
| `ClusterSchedule.RecomputesExactly` | internal/game/room/tick.go:66-124 | over runs of whole ticks the end of a tick recomputes if and only if the interval has passed since the last recompute, a single move since was longer than MovementThreshold, or somebody joined or left since; otherwise clusters, allocator and recorded tick are unchanged |
| `ClusterSchedule.NeverRecomputes` | internal/game/room/tick.go:66-118 | without clustering or with an invalid config no action touches the clusters |
| `RoomOrder.RoomOrderIndependent` | internal/game/room/tick.go:100-107 | two runs with the same ticks and commands, their recomputes fed in different map orders, reach the same room up to the order of names in a cluster and show everyone the same players, while recomputes stay within the limit |
| `RoomOrder.OrderMattersPastLimit` | internal/game/room/tick.go:100-112 | a recompute of a room past the limit has two map orders that assign different players |
| `Cadence.BroadcastCadence` | internal/game/room/tick.go:151-163 | TickRateHz consecutive ticks of the wrapping counter hold at least BroadcastRateHz and at most twice BroadcastRateHz broadcasts; twice if and only if BroadcastRateHz is 1 and the window crosses the wrap and holds the last multiple of TickRateHz before it |
| `Cadence.WrapAddsOne` | internal/game/room/tick.go:158-162 | a window across the wrap that holds exactly twice BroadcastRateHz broadcasts |
| `Cadence.ExactCadence` | internal/game/room/tick.go:151-163 | when BroadcastRateHz divides TickRateHz, TickRateHz ticks hold exactly BroadcastRateHz broadcasts, across the wrap too if the ratio divides 2^32 |
| `Cadence.DefaultCadence` | internal/game/room/tick.go:148-163 | a room built without rates broadcasts on every second tick, 10 in any 20 |
| `Cadence.ExtremeCadence` | internal/game/room/tick.go:152-157 | a broadcast rate at or above the tick rate broadcasts every tick, a non-positive rate never |
| `Lifecycle.LifecycleSound` | internal/game/room/lifecycle.go:11-65 | in every interleaving: at most one launch, at most one close of done, Closed means exited or never launched, accepted commands are handled once in order or queued, and while Running the loop is dead or free to die exactly when the parent was cancelled |
| `Lifecycle.StatusMovesForward` | internal/game/room/lifecycle.go:36-65 | status never moves backwards between any two points of a run |
| `Lifecycle.StopCanComplete` | internal/game/room/lifecycle.go:36-65 | from any point of any run a pending Stop's remaining steps and the loop's exit lead to a closed room with the call returned |
| `Lifecycle.StopTakesHold` | internal/game/room/lifecycle.go:36-52 | a Stop leaves the room Draining or Closed; a never-started room is Closed at once without a loop; otherwise the caller waits |
| `Lifecycle.StoppedForGood` | internal/game/room/lifecycle.go:11-52 | once Draining or Closed, no later Start launches the loop and only enqueue calls already past the status check can still add a command |
| `Lifecycle.EnqueueAnswered` | internal/game/room/room.go:260-275 | an enqueue gets to sending exactly when the room is Running, and is accepted at the end of the queue exactly when there is room |
| `Lifecycle.ParentCancelLeavesRunning` | internal/game/room/tick.go:30-38 | a run after which a Running room has no loop and still queues commands |
| `Lifecycle.ExitLosesQueue` | internal/game/room/tick.go:30-38 | once the loop has exited, in every continuation nothing more is handled and everything queued stays queued |
| `Lifecycle.StopLosesAccepted` | internal/game/room/lifecycle.go:51-62 | a run after which the room is Closed and an accepted command was never handled |
| `RoomRuntime.Room.constructor` | internal/game/room/room.go:128-180 | a new room has the effective config and the initial state |
| `RoomModel.Effective` | internal/game/room/room.go:129-156 | a setting that is not positive is filled in, every other one is kept |
| `RoomModel.DefaultSettings` | internal/game/room/types.go:75-86 | the values an empty config is filled with |
| `RoomRuntime.Room.HandleJoin` | internal/game/room/tick.go:201-246 | the class's join has the specified effect on all tables |
| `RoomRuntime.Room.Detach` | internal/game/room/tick.go:249-268 | the shared part of leave and disconnect has the specified effect |
| `RoomRuntime.Room.Move` | internal/game/room/tick.go:338-362 | the shared part of the two movement commands has the specified effect |
| `RoomRuntime.Room.HandleCommand` | internal/game/room/tick.go:199-527 | every command has the specified effect; malformed ones none |
| `RoomRuntime.Room.DrainCommands` | internal/game/room/tick.go:186-195 | the whole queue is handled in order |
| `RoomRuntime.Room.RecomputeCluster` | internal/game/room/tick.go:93-133 | a valid config commits the clustering of the current players and resets the triggers; an invalid one changes nothing |
| `RoomRuntime.Room.VisiblePlayersFor` | internal/game/room/room.go:443-475 | the list holds exactly the visible players, in either mode, for any ID, present or not |
| `RoomRuntime.Room.BuildDeltaBatches` | internal/game/room/room.go:360-414 | every served session gets its delta and its snapshot is refreshed; no other changes |
| `RoomRuntime.Room.BroadcastDeltas` | internal/game/room/tick.go:167-175 | batches are built and the dirty set cleared |
| `RoomRuntime.Room.Tick` | internal/game/room/tick.go:48-61 | a tick sweeps, drains, clusters and broadcasts as specified |
| `RoomRuntime.Room.Enqueue` | internal/game/room/room.go:269-274 | the command is queued unless the queue is full |
| `RoomRuntime.Room.CreateObject` | internal/game/room/room.go:333-338 | registers an object in the lock table and nothing else; an ID already in use is reported and changes nothing |
| `RoomRuntime.TickIsRun` | internal/game/room/tick.go:48-61 | a tick of the class extends a legal run of the model |
| `RoomRuntime.TickIsWhole` | internal/game/room/tick.go:48-61 | runs made of such ticks finish every tick they begin |

## Left out

- IEEE float32 rounding, NaN and infinities: coordinates are finite reals, so the NaN and Inf checks have nothing to reject; the world bound check stays.
- BroadcastCadence: TickRateHz is below 2^32; a larger quotient of the rates wraps to another ratio, possibly 0, and then every tick broadcasts.
- int32 wrap-around of the player counter and int conversion of huge cell coordinates: both are unbounded integers here.
- Aliasing of object records: the object table holds records as values, so pointers handed out by Get and List are not captured.
- A non-positive cell size: the index requires a positive one, which the room's defaults guarantee.
- Log output, LastSeen and JoinedAt times, and the unused clock reading passed when a session's locks are released.
- The library sort: an insertion sort stands in for it, and only sortedness and permutation are promised.
- Loss or reordering between the broadcaster and a client: batches are applied in order as they are sent.
- RWMutex mechanics inside a tick: a command is one atomic step of the single writer.
- Transports, codec, bridge, handlers, gateway, configuration loading: input and output plumbing.
- Session manager, room registry and room manager: bookkeeping of the same shape as the room tables, but easier.
- Getters and nearby-player queries: one-line reads of tables modelled here.
- Object deltas, voice grouping, MaxClusterRadius and MaxPlayers: declared but not used by the runtime.
