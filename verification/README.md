# Checkpoint/restore operator: verified model

A Dafny model of the decision logic of the checkpoint/restore operator: the retention collector of a
kubelet checkpoint directory, the pin protocol between PodRestores and the collector, the lock table
around kubelet checkpoint requests, the ForensicSnapshotChain controller, the PodRestore controller
with its node-side CRI proxy, and the event trigger of a CheckpointSchedule.

Code that updates state is modelled by classes and methods, each proved against a function or
predicate on values; what the operator promises is then proved about those, mostly over whole runs.

| module | models |
|---|---|
| `ArchiveNames` | kubelet archive names, the collector's glob patterns, the namespace hint |
| `Retention`, `Collector`, `Governance`, `RetentionEvents` | the meaning of a retention pass; the collector; which policy governs what it deletes; events and sweeps |
| `TargetLocks` | the reference-counted per-target mutexes, any number of callers |
| `PodSelector`, `SnapshotChain`, `ChainRuns`, `ChainStatus`, `ChainBound`, `ChainEvidence`, `ChainSevered` | ForensicSnapshotChain: one pass, all runs, what the status tells, tightness of the bounds and wrap-around of the counters, the evidence, a broken chain |
| `PinMarkers`, `PinProtocol`, `PinGuarantees`, `PinPass` | `.keep` markers as owner sets; PodRestores, collectors, users, failing file operations and crashes interleaved; what every run guarantees; what a whole pin pass achieves |
| `CheckpointPaths`, `PodRestore`, `CriProxy`, `RestoreAgreement` | path confinement, spec validation, rendering, the proxy, and that they agree |
| `RestoreReconcile`, `RestoreStatus` | the PodRestore reconcile loop and when it comes to rest; its object and status, exactly |
| `EventTrigger`, `TriggerRuns` | polls for drains, evictions and preemptions; once per disruption |

## What the model takes for granted

- Retention: sizes are whole bytes without an upper bound; names hold no glob metacharacters; stat
  and removal of a listed archive succeed and markers do not change during the exact account of one
  pass (`Collector`). Interference with pins is the subject of `PinProtocol`, where every file
  operation inside the mutex is a step of its own. Of the sort it is only known that it permutes, that
  it leaves no inversion if all files can be read, and that it changes nothing if there is no inversion
  to begin with; the second sort of a pass depends on the last for archives of the same age. Its
  comparator reads files that may already be gone.
- A PodRestore or chain is worked on by one worker at a time, its spec does not change, a status read
  is current, and a failed API write changes nothing. A crash may happen between any two steps of the
  pin protocol, also between temporary file and rename.
- In the pin protocol every file operation may fail: the look at the archive, reading, writing and
  renaming a marker, removing it, the collector's look at the marker and its unlink. Anybody may remove
  an archive, and users may write and remove any marker, managed ones included, at any time; only, what
  they write does not parse as the operator's own document. What a user does to a marker while the
  operator is inside its mutex for that archive tears the marker; statements about a marker's owners are
  about markers that are not torn. Parsing a managed marker gives back what was written; any other
  content is unmanaged.
- Times are seconds. The counters of a chain are 32-bit and wrap. Checksums are not empty.
- Listings of the API server contain a namespace/name once, and a list keyed by container holds a
  container once.
- The cluster, the kubelet, archive contents and the clock are parameters of every operation.

## Where the code does not do what one might expect

- The file-name namespace check also accepts an archive whose namespace is a dash-prefix of the wanted
  one continued by the container name, not only the direction its comment mentions
  (`HintAcceptsOwnAndDashNeighbours`, `HintConfusesDashedNamespaces`).
- The scope of a namespace policy takes in archives of a namespace that extends its name by a dash, and
  an event deletes them although another entry governs them (`DashedNamespaceIsDeleted`). A deleted
  archive shares the event's entry exactly if it is of the event's namespace or the global policy
  governs both (`EventDeletesGoverned`).
- A checksum failure at the end of a round severs the hash chain of the next round
  (`FailedChecksumSevers`, `SeveredRun`); one inside a round does not. `UnbrokenExactly` says when a run
  leaves one chain, by the status persisted before each round.
- The attempt counter of a chain limited by maxSnapshots alone can wrap exactly if maxSnapshots is above
  2^30 (`WrapsExactly`), and then more than 5(2m-1) rounds may be recorded; `MostClosed` gives the exact
  bound for every m, `BoundIsTight` reaches it.
- A pin may succeed on an archive that is already gone, because the archive is looked for before the
  mutex is taken (`PinMayOutliveArchive`). It protects exactly from the lock on (`PinCommitProtects`).
- An unpin that meets a failing file operation is only logged and the finalizer is dropped, so a marker
  may name a PodRestore that is gone (`GivenUpUnpinLeaks`); `ListedOwnersHaveFinalizer` is exact about it.
- A marker that the collector cannot stat counts as absent, so a pinned archive can be unlinked; this,
  a user at the marker, somebody else who removes the archive and the owner's own unpin are all that
  ends a pin (`PinnedArchiveStays`).
- A marker a user writes between the operator's read and its rename is overwritten (`TornMarkerIsLost`).
- A restore may create a second Pod: exactly if the status write behind the first creation failed and
  that Pod vanished before any pass recorded it (`SecondPodExactly`).
- `validateSpec` is not deterministic: with two reserved annotations it names either one, the
  condition's message changes, and the status is written again and again. The reconcile loop comes to
  rest exactly when at most one reserved annotation is present (`ComesToRestExactly`).
- The event trigger remembers pods by name: a pod recreated under the same name between two polls is
  not captured (`RecreatedPodMissed`); `PollAttemptsExactly` says exactly what is attempted.

## Model

| member | source | states |
|---|---|---|
| `ArchiveNames.ContainerGlobExact` | internal/controller/checkpointrestoreoperator_controller.go:640-669 | the container-level pattern matches a kubelet-named archive exactly when pod is equal and the namespace-container key is equal |
| `ArchiveNames.SiblingNeverCaught` | internal/controller/checkpointrestoreoperator_controller.go:640-669 | the pattern of container `app` never catches archives of a sibling such as `app-sidecar` |
| `ArchiveNames.PodGlobExact` | internal/controller/checkpointrestoreoperator_controller.go:640-669 | the pod-level pattern matches a kubelet-named archive exactly when the pod is equal and the rest starts with the namespace and a dash and holds a further dash |
| `ArchiveNames.NamespaceGlobExact` | internal/controller/checkpointrestoreoperator_controller.go:640-669 | exact condition for the namespace-level pattern, dash neighbours included |
| `ArchiveNames.DashFreeKey` | internal/controller/checkpointrestoreoperator_controller.go:640-669 | for dash-free namespaces equal keys mean equal namespace and container |
| `ArchiveNames.DashFreeTail` | internal/controller/checkpointrestoreoperator_controller.go:640-669 | for dash-free namespaces the pod and namespace patterns catch their own namespace only |
| `ArchiveNames.HintExactly` | api/v1/podrestore_types.go:101-115 | the file-name check accepts exactly names of the form checkpoint-, a pod without underscore, an underscore, the namespace, a dash and anything |
| `ArchiveNames.HintOnKubeletName` | api/v1/podrestore_types.go:101-115 | the file-name check depends only on what follows the pod name |
| `ArchiveNames.HintAcceptsOwnAndDashNeighbours` | api/v1/podrestore_types.go:87-115 | the file-name check accepts the archive's own namespace, and a foreign one only if one name extends the other by a dash |
| `ArchiveNames.HintConfusesDashedNamespaces` | api/v1/podrestore_types.go:87-115 | both kinds of dash neighbour are really accepted |
| `Retention.InsertionSortMeetsContract` | internal/controller/checkpointrestoreoperator_controller.go:877-915 | a sort with the collector's comparator can meet the contract the model relies on |
| `Retention.DeletedPrefixKeepsOrder` | internal/controller/checkpointrestoreoperator_controller.go:800-816 | deleting files between the two sorts never makes the old order wrong for the second one |
| `Retention.PhasesMakeTheCut` | internal/controller/checkpointrestoreoperator_controller.go:774-816 | count phase and size phase together, working on stale totals, delete the shortest prefix that meets both limits |
| `Retention.PassSafety` | internal/controller/checkpointrestoreoperator_controller.go:732-827 | a pass deletes nothing pinned and nothing outside its listing, changes no file, and always drops oversize unpinned archives |
| `Retention.PassDeletesOldest` | internal/controller/checkpointrestoreoperator_controller.go:774-816 | an archive deleted for a limit is at most as young as any deletable one that stays |
| `Retention.OutcomeUnique` | internal/controller/checkpointrestoreoperator_controller.go:732-827 | with distinct modification times the result of a pass is determined |
| `Retention.PassReachesLimits` | internal/controller/checkpointrestoreoperator_controller.go:732-827 | afterwards both limits hold for what is left, or nothing unpinned is left |
| `Retention.SecondPassIdle` | internal/controller/checkpointrestoreoperator_controller.go:732-827 | a second pass over the same scope deletes nothing |
| `RetentionEvents.LevelIdempotent` | internal/controller/checkpointrestoreoperator_controller.go:626-828 | a second pass at a level is idle, however it lists and sorts the archives |
| `RetentionEvents.EventIdempotent` | internal/controller/checkpointrestoreoperator_controller.go:416-482 | a whole event repeated with the same answers of the cluster deletes nothing more, across its levels |
| `RetentionEvents.SweepLeavesRest` | internal/controller/checkpointrestoreoperator_controller.go:514-534 | a sweep, its events in any order, leaves the event of every remaining archive at rest |
| `RetentionEvents.SweepIdempotent` | internal/controller/checkpointrestoreoperator_controller.go:514-534 | a second sweep in any other order deletes nothing |
| `RetentionEvents.UnsetLimitDoesNothing` | internal/controller/checkpointrestoreoperator_controller.go:626-638 | a policy with a limit that is not positive deletes nothing |
| `RetentionEvents.OrphansGo` | internal/controller/checkpointrestoreoperator_controller.go:693-730 | with positive limits, orphans not retained and no answer that the object exists, exactly the unpinned archives of the scope go |
| `RetentionEvents.LimitsEnforced` | internal/controller/checkpointrestoreoperator_controller.go:626-828 | otherwise the scope ends within both limits or wholly pinned, and no unpinned archive is above the size limit, by the numbers of the policy |
| `RetentionEvents.WithinLimitsSpared` | internal/controller/checkpointrestoreoperator_controller.go:732-827 | a scope within all limits loses nothing |
| `RetentionEvents.BareEntryKeepsAll` | internal/controller/checkpointrestoreoperator_controller.go:416-445 | an entry that sets nothing keeps a scope below 2^31 archives and 2^60 bytes, orphaned or not |
| `RetentionEvents.SetLimitsCount` | internal/controller/checkpointrestoreoperator_controller.go:416-445 | a limit that is set is the one in force, one that is not is infinite, and orphans stay unless told otherwise |
| `Collector.FindContainerPolicy` | internal/controller/checkpointrestoreoperator_controller.go:484-492 | finds the first entry for namespace, pod and container, and none exactly when there is none |
| `Collector.FindPodPolicy` | internal/controller/checkpointrestoreoperator_controller.go:494-502 | the same for pod entries |
| `Collector.FindNamespacePolicy` | internal/controller/checkpointrestoreoperator_controller.go:504-512 | the same for namespace entries |
| `Collector.SizePrefixIsCut` | internal/controller/checkpointrestoreoperator_controller.go:893-927 | the selection by size picks the shortest prefix that brings the total within the limit |
| `Collector.PhasesAssembled` | internal/controller/checkpointrestoreoperator_controller.go:732-827 | accounting, count rotation and size rotation compose to the one-line meaning of a pass |
| `Collector.CheckpointDir.RemoveArchiveUnlessPinned` | internal/controller/checkpoint_pinning.go:39-49 | removes the archive unless it has a marker; nothing else changes |
| `Collector.CheckpointDir.SortByAge` | internal/controller/checkpointrestoreoperator_controller.go:877-891 | in-place sort: a permutation without inversions under the failing comparator |
| `Collector.CheckpointDir.SelectArchivesToDelete` | internal/controller/checkpointrestoreoperator_controller.go:871-927 | sorts in place and selects the oldest, by number or until the excess is covered |
| `Collector.CheckpointDir.Account` | internal/controller/checkpointrestoreoperator_controller.go:732-772 | removes oversize archives at once; counter, total, sizes and candidates are exactly those of the rest |
| `Collector.CheckpointDir.RotateByCount` | internal/controller/checkpointrestoreoperator_controller.go:774-798 | removes exactly the oldest candidates above the count |
| `Collector.CheckpointDir.RotateBySize` | internal/controller/checkpointrestoreoperator_controller.go:800-827 | removes exactly the oldest candidates until the total is within the limit |
| `Collector.CheckpointDir.RemoveUntilWithin` | internal/controller/checkpointrestoreoperator_controller.go:805-816 | the deletion loop of the size phase removes exactly the selected archives |
| `Collector.CheckpointDir.EnforceLimits` | internal/controller/checkpointrestoreoperator_controller.go:732-827 | the whole limits part meets the one-line meaning of a pass |
| `Collector.CheckpointDir.ListScope` | internal/controller/checkpointrestoreoperator_controller.go:640-691 | lists exactly the readable archives the pattern catches that have no closer entry |
| `Collector.CheckpointDir.RemoveOrphans` | internal/controller/checkpointrestoreoperator_controller.go:710-730 | removes exactly the unpinned archives of the listing |
| `Collector.CheckpointDir.HandleCheckpointsForLevel` | internal/controller/checkpointrestoreoperator_controller.go:626-828 | one level: early outs, orphan handling by the cluster's answer, then the limits |
| `Collector.CheckpointDir.ApplyPolicies` | internal/controller/checkpointrestoreoperator_controller.go:416-482 | one event: the most specific entry decides, the global policy runs its three levels in order |
| `Collector.CheckpointDir.CategorizeCheckpoints` | internal/controller/checkpointrestoreoperator_controller.go:536-552 | the pod containers of the readable archives, each once |
| `Collector.CheckpointDir.ApplyPoliciesImmediately` | internal/controller/checkpointrestoreoperator_controller.go:514-534 | one event per category of the directory, each once, in some order |
| `Governance.CaughtIdentity` | internal/controller/checkpointrestoreoperator_controller.go:640-669 | what a caught kubelet-named archive has in common with the event's details, per level |
| `Governance.ScopeGovernance` | internal/controller/checkpointrestoreoperator_controller.go:677-691 | an archive in scope has the event's governing entry exactly when its namespace is the event's, or both fall to the global policy |
| `Governance.LevelDeletesGoverned` | internal/controller/checkpointrestoreoperator_controller.go:626-828 | what one level deletes shares the event's governing entry exactly if it is of its namespace or both are global; nothing pinned goes |
| `Governance.EventDeletesGoverned` | internal/controller/checkpointrestoreoperator_controller.go:416-482 | the same for a whole event, for every namespace: the exact condition for a deleted kubelet-named archive to be governed by the event's entry |
| `Governance.DashFreeEventGoverned` | internal/controller/checkpointrestoreoperator_controller.go:416-482 | among dash-free namespaces an event deletes only what its own entry governs |
| `Governance.DashedNamespaceIsDeleted` | internal/controller/checkpointrestoreoperator_controller.go:640-772 | an event of namespace a deletes an archive of a-b that its entry does not govern |
| `Governance.GoverningExactly` | internal/controller/checkpointrestoreoperator_controller.go:416-512 | container entry before pod entry before namespace entry before global policy, the first of its kind, by the names in the entries |
| `Governance.ScopeExactly` | internal/controller/checkpointrestoreoperator_controller.go:677-691 | a scope leaves out exactly the archives that an entry of a narrower level names |
| `Governance.SweepMeetsAll` | internal/controller/checkpointrestoreoperator_controller.go:514-552 | a sweep meets every readable archive that carries its kubelet name |
| `TargetLocks.StepKeepsInv` | internal/controller/checkpoint_creator.go:177-216 | every interleaved step keeps exact reference counts, shared entries and exact holders |
| `TargetLocks.RunKeepsInv` | internal/controller/checkpoint_creator.go:177-216 | the same in every reachable state |
| `TargetLocks.MutualExclusion` | internal/controller/checkpoint_creator.go:66-105 | at most one caller per target has a kubelet request in flight, retries included |
| `TargetLocks.TableExact` | internal/controller/checkpoint_creator.go:177-216 | an entry exists exactly while callers use it, is the lock they use, and counts them |
| `TargetLocks.EmptyWhenDone` | internal/controller/checkpoint_creator.go:177-216 | when every caller is done the table is empty |
| `TargetLocks.NeverStuck` | internal/controller/checkpoint_creator.go:66-105 | no reachable state with an unfinished caller is without an enabled step |
| `TargetLocks.EveryRunEnds` | internal/controller/checkpoint_creator.go:66-105 | every run has at most eleven steps per caller |
| `TargetLocks.TargetKeyInjective` | internal/controller/checkpoint_creator.go:147-149 | different targets have different keys |
| `TargetLocks.RetriedUpToThree` | internal/controller/checkpoint_creator.go:66-105 | a transient failure is retried up to the third request; a caller leaves with an end of its own or after exactly three failures |
| `PodSelector.FilterContainers` | internal/controller/pod_selector.go:55-74 | the loop computes the selection; no names select everything |
| `PodSelector.KeepIsFilter` | internal/controller/pod_selector.go:55-74 | the selection holds exactly the named containers, in pod order |
| `SnapshotChain.ToInt32Wraps` | internal/controller/forensicsnapshotchain_controller.go:362-391 | the record index is the position modulo 2^32 in the int32 range |
| `SnapshotChain.Chain.CapturePod` | internal/controller/forensicsnapshotchain_controller.go:284-391 | captures the pod's containers in order and stops at the first failure |
| `SnapshotChain.Chain.CaptureRound` | internal/controller/forensicsnapshotchain_controller.go:284-391 | a round over all pods: records, running hash and integrity are those of the captured prefix |
| `SnapshotChain.Chain.ExecutePostSnapshotAction` | internal/controller/forensicsnapshotchain_controller.go:582-609 | if asked to and something was captured, one delete call per listed pod in order, up to the first that fails |
| `SnapshotChain.Chain.PersistRound` | internal/controller/forensicsnapshotchain_controller.go:393-469 | counters, limits, completion and records after a round |
| `SnapshotChain.Chain.AppendRoundRecords` | internal/controller/forensicsnapshotchain_controller.go:520-548 | appends the round's records; the integrity condition changes only with records and hashing |
| `SnapshotChain.Chain.RecordFailure` | internal/controller/forensicsnapshotchain_controller.go:307-360 | failure streak, and Failed after five when no deadline is set |
| `SnapshotChain.Chain.ReconcileRunning` | internal/controller/forensicsnapshotchain_controller.go:181-266 | unsupported algorithm, deadline and interval checks in order, then the round |
| `SnapshotChain.Chain.ReconcileRound` | internal/controller/forensicsnapshotchain_controller.go:268-513 | one round, its failure or its persisted outcome, and the deletions after completion |
| `SnapshotChain.Chain.Reconcile` | internal/controller/forensicsnapshotchain_controller.go:83-513 | one pass computes the specified status, number of checkpoint requests and deletions |
| `ChainRuns.RunningInvariant` | internal/controller/forensicsnapshotchain_controller.go:83-513 | in every reachable state Running has a start time, is below the snapshot limit, and has a short failure streak |
| `ChainRuns.CountersOrdered` | internal/controller/forensicsnapshotchain_controller.go:393-426 | the attempt counter is the number of non-failing rounds exactly until it wraps, and until then captured rounds are attempts |
| `ChainRuns.FailuresAreStreak` | internal/controller/forensicsnapshotchain_controller.go:307-360 | the failure counter is the current streak of failed rounds |
| `ChainRuns.NoCaptureAfterDeadline` | internal/controller/forensicsnapshotchain_controller.go:181-258 | past the deadline no pass requests a checkpoint, and an unhindered one completes the chain, or fails it for an unsupported algorithm |
| `ChainRuns.LeftDrops` | internal/controller/forensicsnapshotchain_controller.go:393-426 | a non-failing round that leaves the chain running uses up one of the rounds left, wrap-around of the counter included |
| `ChainRuns.RoundUsesBudget` | internal/controller/forensicsnapshotchain_controller.go:307-426 | every recorded round strictly shrinks a budget of remaining rounds |
| `ChainRuns.RoundsBounded` | internal/controller/forensicsnapshotchain_controller.go:307-469 | with maxSnapshots m alone at most 5 Most(m) rounds are recorded, for every m |
| `ChainRuns.NonFailingBounded` | internal/controller/forensicsnapshotchain_controller.go:393-469 | in every run at most Most(m) rounds do not fail, and while running what is left fits in |
| `ChainRuns.MostClosed` | internal/controller/forensicsnapshotchain_controller.go:393-426 | Most(m) in closed form; it is 2m-1 exactly up to m = 2^30 |
| `ChainRuns.NeverWraps` | internal/controller/forensicsnapshotchain_controller.go:393-426 | up to 2^30 snapshots the counters are the numbers of rounds in every run |
| `ChainRuns.AlwaysEnds` | internal/controller/forensicsnapshotchain_controller.go:307-469 | any mix of capturing, empty and failing rounds ends the chain |
| `ChainRuns.CountersMeanRounds` | internal/controller/forensicsnapshotchain_controller.go:393-426 | the counters are the numbers of captured and of non-failing rounds of the run |
| `ChainRuns.CompletionReasons` | internal/controller/forensicsnapshotchain_controller.go:393-469 | in every run the reason of a completed chain is one of the three, each with its condition on the rounds |
| `ChainRuns.SnapshotsExact` | internal/controller/forensicsnapshotchain_controller.go:393-426 | under maxSnapshots the snapshot counter is the number of captured rounds in every run |
| `ChainRuns.CompletesWithAllSnapshots` | internal/controller/forensicsnapshotchain_controller.go:393-469 | completion before the deadline without empty rounds means exactly maxSnapshots captured rounds |
| `ChainRuns.RecordsAreRounds` | internal/controller/forensicsnapshotchain_controller.go:284-391 | the record list is exactly the captured rounds in order; a round that fails part way leaves nothing |
| `ChainRuns.RecordsEnumerateTargets` | internal/controller/forensicsnapshotchain_controller.go:362-391 | records enumerate the selected pod/container pairs round by round with their position as index |
| `ChainRuns.RecordBlocks` | internal/controller/forensicsnapshotchain_controller.go:284-548 | in every run each captured round is a full block of records, and snapshotCount is their number exactly until it wraps |
| `ChainStatus.RequestsExactly` | internal/controller/forensicsnapshotchain_controller.go:181-305 | a pass makes requests exactly when a round is due, by phase, algorithm, deadline and interval, one per target up to the first failure |
| `ChainStatus.TargetsExactly` | internal/controller/forensicsnapshotchain_controller.go:268-305 | the targets are the selected containers of the listed pods, in order |
| `ChainStatus.ErrorTells` | internal/controller/forensicsnapshotchain_controller.go:307-426 | in every run the error message is that of the latest failure no captured round has cleared |
| `ChainStatus.IntegrityTells` | internal/controller/forensicsnapshotchain_controller.go:520-548 | the integrity flag is about the last captured round alone, and true exactly if all its checksums succeeded |
| `ChainStatus.TimesTell` | internal/controller/forensicsnapshotchain_controller.go:83-469 | start, last round and completion times are those of the passes that caused them; completion is set exactly in a terminal phase |
| `ChainStatus.ReadyTells` | internal/controller/forensicsnapshotchain_controller.go:83-426 | the Ready reason of a chain that has not completed follows from its phase, its algorithm and an uncleared failure |
| `ChainEvidence.BackLinks` | internal/controller/forensicsnapshotchain_controller.go:362-391 | each hashed record links to the nearest earlier hashed one of its round, else to the last persisted hash |
| `ChainEvidence.RecordTells` | internal/controller/forensicsnapshotchain_controller.go:362-391 | a record carries its target, position, time and archive, and without sha256 neither hash nor link |
| `ChainEvidence.RoundExtendsChain` | internal/controller/forensicsnapshotchain_controller.go:284-548 | persisted records never change; a captured round appends its block |
| `ChainEvidence.FailedChecksumSevers` | internal/controller/forensicsnapshotchain_controller.go:362-391 | after a failed last checksum the next round links to nothing |
| `ChainSevered.SeveredRun` | internal/controller/forensicsnapshotchain_controller.go:284-391 | a run whose record chain is broken by one failed checksum |
| `ChainEvidence.RoundUnbrokenExactly` | internal/controller/forensicsnapshotchain_controller.go:293-391 | a round keeps the chain unbroken exactly when it hashes nothing or starts on connected records |
| `ChainEvidence.UnbrokenExactly` | internal/controller/forensicsnapshotchain_controller.go:284-548 | a run leaves an unbroken chain exactly when every captured round with a checksum starts on connected records, read off the status before it |
| `ChainEvidence.UnbrokenChain` | internal/controller/forensicsnapshotchain_controller.go:284-548 | without checksum failures every record links to the one in front of it, across all rounds |
| `ChainEvidence.DeletesAtMostOnce` | internal/controller/forensicsnapshotchain_controller.go:428-469 | at most one pass of a run deletes pods |
| `ChainEvidence.DeletesAfterEvidence` | internal/controller/forensicsnapshotchain_controller.go:428-469 | pods go only in the pass that persists Completed, with records persisted, and the status is final |
| `ChainEvidence.DeletesExactlyThen` | internal/controller/forensicsnapshotchain_controller.go:428-609 | a pass deletes exactly if it completes the chain with a snapshot taken and deletion asked for: every listed pod in order up to the first call that fails |
| `ChainEvidence.FailedNeverDeletes` | internal/controller/forensicsnapshotchain_controller.go:307-360 | a run that ends Failed never deletes a pod |
| `ChainBound.BoundIsTight` | internal/controller/forensicsnapshotchain_controller.go:307-469 | for every limit some run records exactly 5 Most(m) rounds |
| `ChainBound.MostIsTight` | internal/controller/forensicsnapshotchain_controller.go:393-469 | for every limit some run has exactly Most(m) rounds that do not fail |
| `ChainBound.AttemptsCanWrap` | internal/controller/forensicsnapshotchain_controller.go:393-426 | above 2^30 snapshots some run is still running with a negative attempt counter |
| `ChainBound.WrapsExactly` | internal/controller/forensicsnapshotchain_controller.go:393-426 | the attempt counter can wrap exactly if maxSnapshots is above 2^30 |
| `PinMarkers.PinRefines` | internal/controller/podrestore_controller.go:412-452 | pinning is insertion into the owner set, kept sorted, and leaves a user's marker alone |
| `PinMarkers.UnpinRefines` | internal/controller/podrestore_controller.go:458-491 | unpinning is removal from the owner set, and the marker goes with its last owner |
| `PinMarkers.MarkerIsOwnerSet` | internal/controller/podrestore_controller.go:412-491 | after any sequence of pins and unpins the marker is exactly the resulting owner set |
| `PinMarkers.UnmanagedUntouched` | internal/controller/podrestore_controller.go:412-491 | no sequence of pins and unpins changes a user's marker |
| `PinMarkers.RemoveString` | internal/controller/podrestore_controller.go:537-545 | in-place removal keeps the other owners in order |
| `PinMarkers.PinStore.WriteMarker` | internal/controller/podrestore_controller.go:511-526 | temporary file and rename: the marker is the old or the new one, whichever step fails |
| `PinMarkers.PinStore.PinCheckpoint` | internal/controller/podrestore_controller.go:412-452 | on success the marker is the pinned one, otherwise unchanged; success needs the archive and is certain without a fault; other markers stay |
| `PinMarkers.PinStore.UnpinCheckpoint` | internal/controller/podrestore_controller.go:458-491 | the marker is the unpinned one, or unchanged when an operation fails; other markers stay |
| `PinProtocol.StepKeepsInv` | internal/controller/checkpoint_pinning.go:29-49 | every interleaved step, failing operations, users and crashes included, keeps the invariant of mutex, markers and finalizers |
| `PinGuarantees.UnlinksOnlyUnmarked` | internal/controller/checkpoint_pinning.go:29-49 | in every run the operator deletes an archive only by an unlink, and with a marker only if the collector could not look at it or the marker is torn |
| `PinGuarantees.StepRefinesOwners` | internal/controller/podrestore_controller.go:412-526 | a marker that is not torn changes only by commits, one owner at a time, and by users; a user's marker only by users |
| `PinGuarantees.MarkersRefineOwners` | internal/controller/podrestore_controller.go:412-526 | in every run a marker that is not torn is exactly the owner set left by commits and users |
| `PinGuarantees.PinnedArchiveStays` | internal/controller/checkpoint_pinning.go:29-49 | an archive with a listed owner stays pinned throughout a run exactly if no step disturbs it, even if a collector had chosen it |
| `PinGuarantees.WhileLocked` | internal/controller/podrestore_controller.go:419-452 | while a reconciler owns the mutex an archive is there exactly as kubelet and others leave it |
| `PinGuarantees.PinTakesHold` | internal/controller/podrestore_controller.go:412-452 | a committed pin holds the archive exactly if it was there at the lock or written since, and nobody else removed it |
| `PinGuarantees.PinCommitProtects` | internal/controller/podrestore_controller.go:163-181 | from the lock of a pin in any run: protected throughout exactly if it took hold and nothing disturbs it |
| `PinGuarantees.ListedOwnersHaveFinalizer` | internal/controller/podrestore_controller.go:96-136 | an owner is on a marker only with its finalizer or after a given-up unpin that nobody has made good; without the finalizer exactly then |
| `PinGuarantees.NeverStuck` | internal/controller/podrestore_controller.go:419-475 | while a reconciler or collector pass is under way, it or the owner of the mutex has a step |
| `PinGuarantees.PinMayOutliveArchive` | internal/controller/podrestore_controller.go:412-421 | a run in which a pin commits on an archive unlinked in the meantime |
| `PinGuarantees.GivenUpUnpinLeaks` | internal/controller/podrestore_controller.go:112-126 | a run that leaves a marker naming a PodRestore that is gone |
| `PinGuarantees.TornStep` | internal/controller/podrestore_controller.go:419-452 | a marker is torn exactly by a user who touches it while the operator is inside the mutex for it |
| `PinGuarantees.TornMarkerIsLost` | internal/controller/podrestore_controller.go:423-452 | a run in which a user's marker is overwritten by a pin that had read before |
| `PinPass.RenamesWhatItWrote` | internal/controller/podrestore_controller.go:511-526 | in every run a rename puts in place exactly the temporary file written for it |
| `PinPass.PassAdvances` | internal/controller/podrestore_controller.go:163-173 | a pin pass goes on to the next checkpoint exactly by pinning the one at hand, finding it pinned, meeting a user's marker, or missing it |
| `PinPass.PassHandlesEveryPath` | internal/controller/podrestore_controller.go:163-173 | in every run a pin pass that ends has dealt with every checkpoint in one of these ways |
| `PinPass.PassPinsExactly` | internal/controller/podrestore_controller.go:163-181 | users aside, when a pass ends the owner is on a marker exactly if it was before or the pass reached that path without missing it |
| `PinPass.PassPins` | internal/controller/podrestore_controller.go:163-181 | a checkpoint that a pass does not miss is pinned when it ends |
| `PinPass.PassIsShort` | internal/controller/podrestore_controller.go:112-173 | in every run a pin or unpin pass takes at most five steps for each checkpoint and one to end |
| `CheckpointPaths.AcceptedPathExact` | api/v1/podrestore_types.go:52-85 | a path is accepted exactly when it is a .tar entry directly inside the cleaned absolute directory |
| `CheckpointPaths.RootedIsClean` | api/v1/podrestore_types.go:59-61 | absolute paths of ordinary elements are the fixed points of cleaning |
| `CheckpointPaths.CleanAbs` | api/v1/podrestore_types.go:74-85 | a relative directory never cleans to an absolute one, so it admits no path |
| `CheckpointPaths.CleanLeadsToTheSame` | api/v1/podrestore_types.go:59-85 | a path and its cleaned form lead to the same place from every working directory |
| `PodRestore.ValidateSpec` | internal/controller/podrestore_controller.go:252-277 | answers one of the possible errors, and none exactly when there is none |
| `PodRestore.AcceptedExact` | internal/controller/podrestore_controller.go:252-277 | a spec is accepted exactly when no annotation is reserved and every checkpoint is confined, plausible and in the template |
| `PodRestore.AnswersExactly` | internal/controller/podrestore_controller.go:252-277 | which errors validation may answer with: any reserved annotation, else that of the first checkpoint that is not sound, path before namespace before container |
| `PodRestore.AnswerUnique` | internal/controller/podrestore_controller.go:246-257 | validation has two possible answers exactly when two annotations are reserved |
| `PodRestore.FindContainer` | internal/controller/podrestore_controller.go:383-390 | position of the first container of that name |
| `PodRestore.RenderPod` | internal/controller/podrestore_controller.go:282-326 | the loop renders all checkpoints into the template, or reports the first failure |
| `CriProxy.CreateContainerRequest.Rewrite` | internal/criproxy/proxy.go:112-167 | the verdict on any request, the image replaced exactly on a restore, everything else untouched |
| `RestoreAgreement.ReservedAnnotationsExact` | internal/controller/podrestore_controller.go:252-326 | path annotations of a rendered Pod are exactly the listed checkpoints, container and path as the spec pairs them |
| `RestoreAgreement.OtherAnnotation` | internal/controller/podrestore_controller.go:282-326 | every other annotation is the template's |
| `RestoreAgreement.RenderedImage` | internal/controller/podrestore_controller.go:310-319 | rendering fills exactly the empty images of listed containers, from their own archive |
| `RestoreAgreement.RenderSucceedsExactly` | internal/controller/podrestore_controller.go:282-326 | rendering succeeds exactly when every listed container exists and has an image or a readable archive, and else blames the first that does not |
| `RestoreAgreement.RenderedIdentity` | internal/controller/podrestore_controller.go:282-326 | a rendered Pod has the restore's namespace, name and node, is controlled by it and carries its label over the template's |
| `RestoreAgreement.ControllerAndProxyAgree` | internal/criproxy/proxy.go:96-167 | on a rendered Pod the proxy passes unlisted containers, never finds a listed path invalid, and restores it once the namespace is proven |
| `RestoreAgreement.ProxyRestoresExactly` | internal/criproxy/proxy.go:96-167 | for any request the proxy restores exactly confined archives of the sandbox's own namespace |
| `RestoreAgreement.ProxyVerdicts` | internal/criproxy/proxy.go:112-167 | exactly when the proxy passes a request on, refuses its path, or refuses its namespace |
| `RestoreAgreement.ProvenPassesHint` | api/v1/podrestore_types.go:87-115 | an archive that passes the proxy's namespace check passes the controller's |
| `RestoreReconcile.Reconciler.SaveStatus` | internal/controller/podrestore_controller.go:344-358 | writes the status only when it changed |
| `RestoreReconcile.Reconciler.PinAll` | internal/controller/podrestore_controller.go:163-172 | calls pin for every checkpoint and is true exactly when every one was pinned |
| `RestoreReconcile.Reconciler.UnpinAll` | internal/controller/podrestore_controller.go:115-118 | calls unpin for every checkpoint |
| `RestoreReconcile.Reconciler.Report` | internal/controller/podrestore_controller.go:215-243 | ownership check, then Pod phase onto the Ready condition |
| `RestoreReconcile.Reconciler.CreatePod` | internal/controller/podrestore_controller.go:188-212 | missing Pod: drift, render failure, create failure, lost race, or a new Pod |
| `RestoreReconcile.Reconciler.Reconcile` | internal/controller/podrestore_controller.go:96-243 | one pass on the object and its Pod, for one of validation's possible answers, with the pin and unpin calls it makes |
| `RestoreReconcile.NoSecondPod` | internal/controller/podrestore_controller.go:188-196 | once the Pod's name is persisted no pass creates a Pod or forgets the name |
| `RestoreReconcile.CreationsBounded` | internal/controller/podrestore_controller.go:188-243 | over any run, whoever deletes the Pod, at most one Pod more is created than status writes fail behind a creation |
| `RestoreReconcile.SecondPodExactly` | internal/controller/podrestore_controller.go:188-243 | behind a creation a second Pod is created exactly if its status write failed, no pass recorded it and it is gone |
| `RestoreReconcile.StatusTellsTheTruth` | internal/controller/podrestore_controller.go:138-243 | after a fault-free pass Ready holds exactly when the spec is acceptable, the node exists and the restore's own Pod has run; CheckpointsPinned holds exactly when all are pinned |
| `RestoreReconcile.CreatesExactly` | internal/controller/podrestore_controller.go:188-212 | a Pod is created exactly when nothing is in its way and none is there or was recorded |
| `RestoreReconcile.SameAgain` | internal/controller/podrestore_controller.go:138-141 | repeating the pass that produced the stored status changes nothing, at any later time |
| `RestoreReconcile.AtMostTwoWrites` | internal/controller/podrestore_controller.go:339-358 | in an unchanging world with arbitrary faults at most two passes write the object |
| `RestoreReconcile.TwoPassesSettle` | internal/controller/podrestore_controller.go:96-243 | two fault-free passes settle the restore from any state |
| `RestoreReconcile.ReservedKeysFlap` | internal/controller/podrestore_controller.go:252-257 | with two reserved annotations runs of any length may write in every pass |
| `RestoreReconcile.ComesToRestExactly` | internal/controller/podrestore_controller.go:96-277 | the loop comes to rest exactly when at most one annotation is reserved |
| `RestoreStatus.LifeExactly` | internal/controller/podrestore_controller.go:112-136 | when the object goes, when it is marked as deleted and when it gets its finalizer, for every event |
| `RestoreStatus.StatusExactly` | internal/controller/podrestore_controller.go:138-243 | a fault-free pass gives the first reason that applies, names the Pod exactly if it is its own, and moves a transition time exactly with its truth value |
| `RestoreStatus.PathsInOrder` | internal/controller/podrestore_controller.go:163-173 | the pin and unpin calls are for the paths of the checkpoints, in order |
| `EventTrigger.Trigger.PodIsPreempted` | internal/controller/event_trigger.go:251-260 | true exactly when a condition marks a preemption |
| `EventTrigger.Trigger.CheckpointPodContainers` | internal/controller/event_trigger.go:231-247 | succeeds exactly when every selected container is captured |
| `EventTrigger.Trigger.CheckpointOnce` | internal/controller/event_trigger.go:209-227 | a remembered pod is skipped, another is attempted and remembered on success |
| `EventTrigger.Trigger.HandleNodeDrain` | internal/controller/event_trigger.go:140-206 | forgets nodes that stopped draining and visits the others, in any order |
| `EventTrigger.NodeTurnsAreNodesAfter` | internal/controller/event_trigger.go:170-206 | what is remembered of the drains does not depend on the order of the visits |
| `EventTrigger.Trigger.Run` | internal/controller/event_trigger.go:100-138 | one poll: new memory and the exact list of attempts |
| `TriggerRuns.TurnMeaning` | internal/controller/event_trigger.go:126-138 | a pod that is not remembered is tried for eviction exactly if it is being deleted, and for preemption exactly if a condition says so and eviction did not already succeed |
| `TriggerRuns.RememberedExactly` | internal/controller/event_trigger.go:100-138 | over any polls a pod is remembered exactly if some poll lists it disrupted and capturable and none since misses it |
| `TriggerRuns.AttemptedExactly` | internal/controller/event_trigger.go:126-138 | a listed pod gets its whole turn exactly unless it was captured and listed ever since, so failures are retried |
| `TriggerRuns.SucceedsExactly` | internal/controller/event_trigger.go:208-227 | a poll captures a pod exactly if it can and the pod was not captured and listed since |
| `TriggerRuns.OncePerDisruption` | internal/controller/event_trigger.go:208-227 | between two captures of a pod some poll saw it missing |
| `TriggerRuns.RecreatedPodMissed` | internal/controller/event_trigger.go:107-119 | a disrupted pod recreated under a captured name gets no attempt |
| `TriggerRuns.DrainsMeaning` | internal/controller/event_trigger.go:140-170 | a node counts as draining exactly if drains are watched, both listings are there, and a listed cordoned node of that name hosts a listed pod |
| `TriggerRuns.DrainRememberedExactly` | internal/controller/event_trigger.go:140-206 | a drain is remembered exactly from a poll that lists the node cordoned and all its pods capturable until a poll with both listings shows it not draining |
| `TriggerRuns.OncePerDrain` | internal/controller/event_trigger.go:160-206 | between two full captures of a node it was seen not draining |
| `TriggerRuns.PollAttemptsExactly` | internal/controller/event_trigger.go:100-206 | everything a poll attempts on a listed pod, stated on the polls alone |

## Left out

- Reading archives (tar and metadata parsing), checksums and signing: only their answers enter the model.
- The file watcher, the debouncing queue and the garbage-collection ticker that start a retention event.
- CheckpointSchedule's reconciler, pod selection by labels and the API server's list calls.
- partitionArchives: it only feeds the log messages about pinned archives that keep a limit from being reached.
- The annotation, resource and cron triggers.
- The kubelet HTTP client behind the lock table: a request is a step that succeeds, fails or fails transiently.
- The CRI methods the proxy merely forwards, and its socket handling.
- Requeue delays and events: they decide when a pass runs, not what it does.
- Defaulting and parsing of the operator's policy resource; the model starts from the parsed policies.
- Collector.CheckpointDir.RemoveArchiveUnlessPinned: a removal that fails, which the source only logs, is not represented here; PinProtocol has it as a step.
- Collector.CheckpointDir.ApplyPolicies: stat and removal failures during a pass are not modelled, so the result of a pass that meets one is not covered.
- PodRestore.RenderPod: setting the controller reference cannot fail for a new Pod in the restore's own namespace, so that error path is absent.
- PinProtocol.StepKeepsInv: users who forge a managed marker are excluded, and of a torn marker nothing is said about its owners.
- RestoreReconcile.AtMostTwoWrites: the Pod's phase does not change during the run; each change allows one more status write.
