# Verified models of the local coding agent

The agent runs commands in Docker containers over copies of the user's workspace. This project models the
parts of it whose mistakes would be silent, and proves what they promise. `dafny verify dfyconfig.toml`
checks everything.

**Staging with crash recovery.** `StagingRecord` is the journal record with its eight states and the
transition rule, `JournalCodec` its payload and parser. `StagingWorld` is everything that outlives a process
(the staging root, the journal, change times, the containers and volumes that are there, and those asked for
without an answer), with one step
for every durable change and an invariant over all runs; a crash may strike between any two steps.
`StagingJournal`, `StagingLifecycle`, `StagingRecovery` and `StagedOperation` are the code itself, as classes
and methods over a `StagingDisk`: the lease, the handle, the journal write as a compare-and-swap, discarding,
cleanup, recovery, and the operation around the container runtime. Each durable change has to be a step of
`StagingWorld`, so whatever these methods do, failures included, is a run, and what holds of all runs holds
of all their crash states. A stream of faults decides before and after which call something fails.

**Recovery obligations.** `CommandProtocol` is a command result with its correlation, event sequence and
monotonic times. `RecoveryProtocol` is the bounded query and inspect protocol in its three variants: from the
live plan, from the journalled binding, and for a volume. Results are arbitrary.

**From create to proved absence.** `InstanceProtocol` is the chain create, start, ready, proof, inspect,
release, wait, final inspect, logs, remove, absence check, again under arbitrary results. `MountPlanning` and
`MountMatching` are the root layout, the planned mounts, and the loops that compare observed mounts with them.

**Smaller imperative cores.** `StagingFiles` copies a snapshot and removes a directory over a file system with
permission bits; `ComposerHistory` is the prompt history and its file; `MarkdownTable` the row splitter and the
cell references; `VerificationTimeline` the writes in effect and the delivery checks; `ToolBatch` the pairing
of tool calls with results. `Prelude` holds options, decimal numerals, texts, paths and decoded JSON.

## What the proofs found

- `StagedOperation.CrashAndRecoverTwice`: with no further failure recovery finishes exactly the crash states
  that `Recoverable` describes, and some states of ordinary runs are not among them:
  - a leftover temporary journal file makes the scan refuse everything (container_staging_journal.py:78, :224-227);
  - a reserved record with its directory present stays unresolved (container_staging_lifecycle.py:494-499), and so
    does a prepared one whose directory an interrupted discard has touched;
  - in create_possible the prep container and every volume must be found, and in execution_create_possible the
    execution container and every volume, because an empty answer is never taken for absence before
    execution_absent is recorded (container_durable_recovery.py:268-273, container_volume_recovery.py:266-276).
    A crash before a creation, between two creations, behind a removal, or inside an earlier recovery therefore
    leaves an attempt that stays unresolved: `CrashBeforeAnyCreate`, `CrashInsideRecovery`, `StuckForEver`. This
    is what the tests ask for (tests/test_container_isolation_backend.py:1274-1306).
- `StagedOperation.StageSnapshots`: when the emptiness check or the reservation raises, the lease stays open
  (container_staging.py:401-422). Without failures this happens exactly when the authority is not empty or the first
  record is invalid, and then the process has locked itself out: `KeptLeaseLocksOut`.
- `JournalCodec.RecordRoundTrip`: file identities may carry a negative mode, which the reader refuses.
- `HistoryRecords.RecordReadsBack`: one prompt with U+0085, U+2028 or U+2029 makes the whole history file
  unloadable, because the writer does not escape what `splitlines` cuts.
- `VerificationPlans.RolledBackItemStaysPassed`: a rollback of the only write moves the test item off passed but not
  the diff item, because without a write in effect and without a diff the item is not set at all;
  `DiffItemPassedIff` is the exact condition.
- `ToolBatches.AnsweredOnceIff`: `plan_remaining_batch` promises to keep calls and results paired also in a batch
  that goes on behind suppressed calls (runtime/explore.py:193-199). It does exactly when the ids of the batch
  suffice. `after_tool_result` only ever returns decisions that stop the batch, and for those no condition is
  left: `AnsweredOnceAsDecided`.
- `MountMatching.RuntimeMountsMatch`: a planned mount at `/tmp` could never be matched; the layout check excludes it.

## Assumptions

- No outside process edits the staging root, the journal or the history file.
- The truncated SHA-256 of a command id is kept as an injective constructor. Nothing is claimed of content digests.
- The journal's temporary file, link and replace are atomic single steps; a crash between them is a crash between steps.
- The container runtime asks for a creation only in the states in which tools/container_runtime.py does, each
  resource once. An unconfirmed creation may have taken effect, may do so at any later time, or never.
- The engine does not lie: what it confirms or names is there, what it no longer names is gone. How a run of
  commands then settles one resource is `RecoveryProtocol.HealthyRunSettles`, the rule that recovery uses.
- "Without failures" (`Reliable`) means: no call fails and no pending creation takes effect any more.
- File modes come from `stat` and are not negative, so a stored record can be read back.

## Model

| member | source | states |
|---|---|---|
| StagingRecords.ChainDescends | src/local_agent/execution/container_staging_contracts.py:278-329 | Over any chain of valid transitions the state rank grows at every step, at most 7 steps follow each other, attempt, authority, workspace and revision never change, change times never go back, and a stored binding stays. |
| StagingRecords.BindingSetOnce | src/local_agent/execution/container_staging_contracts.py:208-234 | Where two records of a chain differ in the container binding, exactly one transition between them, the one into create_possible, stored it: none before, the same one ever after. |
| StagingRecords.AbsenceOnlyThroughExecutionAbsent | src/local_agent/execution/container_staging_contracts.py:283-300 | From execution_create_possible the next record is execution_absent, and container_absent can only be the one after it. |
| StagingRecords.MovedRecordValid | src/local_agent/execution/container_staging_contracts.py:170-234 | Replacing the state of a valid record passes the constructor again exactly when the binding is present or absent as the new state demands. |
| JournalCodec.RecordRoundTrip | src/local_agent/execution/container_staging_journal.py:254-291 | Reading back the payload of a valid record gives that record, unless the mode of a bound file is negative; then the payload is refused. |
| JournalCodec.ContainerRoundTrip | src/local_agent/execution/container_staging_journal.py:356-396 | A valid container binding survives payload and parser exactly when neither file mode is negative. |
| JournalCodec.AcceptedRecordIsStable | src/local_agent/execution/container_staging_contracts.py:240-275 | Whatever the reader accepts is a valid record whose own payload reads back as the same record. |
| StagingWorld.StepKeepsInv | src/local_agent/execution/container_staging_lifecycle.py:649-685 | Every durable step of staging, cleanup, recovery and the container runtime keeps the invariant: one record at most, one directory at most, one name, only resources that the record admits, none both pending and present, and nothing pending behind execution_absent. |
| StagingWorld.RunKeepsInv | src/local_agent/execution/container_staging_lifecycle.py:433-585 | The invariant holds at every point of every run, so in every crash state. |
| StagingWorld.ResourcesAreAnsweredFor | src/local_agent/execution/container_staging_lifecycle.py:526-568 | At any point of any run: while a prep container, volume or execution container may exist, the journal holds one record, in a container-possible state that admits every such resource, beside its untouched directory. |
| StagingWorld.OneAttemptAtATime | src/local_agent/execution/container_staging_lifecycle.py:420-430 | At any point of any run the journal and the staging root name at most one attempt between them. |
| StagingWorld.RemovedOnlyWhenNothingExists | src/local_agent/execution/container_staging_lifecycle.py:605-646 | A record or an attempt directory disappears only in a step at which no container and no volume may exist; no step asks for this, it follows from the invariant. |
| StagingWorld.BindingKept | src/local_agent/execution/container_staging_contracts.py:302-329 | Over any stretch of a run on which something may exist, the same attempt answers throughout, its records descend from one another and the binding is the one first stored. |
| StagingWorld.CellsNeverReturn | src/local_agent/execution/container_staging_journal.py:57-150 | A journal file that is not a given version of a given record never becomes it again in the rest of the run. |
| StagingWorld.CrashBeforeAnyCreate | src/local_agent/tools/container_runtime.py:272-303 | Every prepared attempt passes through a crash state that recovery cannot finish: create_possible is recorded and no creation was asked for. |
| StagingWorld.CrashInsideRecovery | src/local_agent/tools/container_recovery_runtime.py:188-220 | Recovery passes through one too: the execution container is removed and its absence not yet recorded. |
| StagingJournal.StagingDisk.AfterCrash | src/local_agent/execution/container_staging_lifecycle.py:433-460 | A process that starts after a crash at any point of a run finds exactly the durable state of that point, and no lock. |
| StagingJournal.StagingDisk.Change | src/local_agent/execution/container_staging.py:194-274 | Any durable change is recorded; the disk stays valid if the change is a step of the model. |
| StagingJournal.StagingDisk.Advance | src/local_agent/execution/container_staging.py:194-274 | A durable change is a step of the model; it extends the recorded run and keeps the invariant. |
| StagingJournal.WriteStagingRecord | src/local_agent/execution/container_staging_journal.py:57-150 | Compare-and-swap, for any caller: a version is returned only if the cell was exactly the expected one and now holds the new record; a failed call has swapped nothing, or swapped and failed afterwards. The run stays one of the model if the caller meets what it owes. |
| StagingJournal.RemoveStagingRecord | src/local_agent/execution/container_staging_journal.py:238-251 | Removes exactly the expected record and version, for any caller; otherwise the journal is unchanged. The run stays one of the model if the attempt directory is gone. |
| StagingJournal.Transition | src/local_agent/execution/container_staging_lifecycle.py:649-685 | The handle moves exactly when handle, directories and transition were valid (or the attempt missing where that is allowed) and the write was read back; a handle that disagrees with the disk changes nothing, and one that did not move is unchanged or disagrees with the disk. |
| StagingJournal.StaleHandleStaysStale | src/local_agent/execution/container_staging_lifecycle.py:688-701 | Once a handle disagrees with the disk, also after a failure behind the replace, it disagrees in every later state. |
| StagingJournal.Lease.Close | src/local_agent/execution/container_staging_lifecycle.py:48-56 | Closing releases the lock once and is idempotent. |
| StagingLifecycle.RemoveDirectory | src/local_agent/execution/container_staging_lifecycle.py:617-638 | Empties and removes exactly the directory object that was recorded; a missing or exchanged one is told apart and untouched. |
| StagingLifecycle.MarkMoved | src/local_agent/execution/container_staging_lifecycle.py:254-292 | Each state mark is a transition of the current handle or leaves handle and journal as they were; it raises when the record constructor refuses. |
| StagingLifecycle.Discard | src/local_agent/execution/container_staging_lifecycle.py:349-417 | Verified only when directory and record are gone; without failures verified exactly for a record before containers that the handle agrees with, with no directory or exactly the known one. The lease is closed in every case. |
| StagingLifecycle.ResumeCleanup | src/local_agent/execution/container_staging_lifecycle.py:605-646 | Cleanup that was started is finished, verified only when directory and record are both gone; a stale handle changes nothing. |
| StagingLifecycle.CleanupClosed | src/local_agent/execution/container_staging_lifecycle.py:588-602 | A closed attempt is cleaned up behind a recorded cleanup start; without failures it always succeeds for a current handle. |
| StagingLifecycle.CleanupLifecycle | src/local_agent/execution/container_staging_lifecycle.py:336-346 | Nothing is touched unless container closure is recorded and current; the lease is closed in every case. |
| StagingRecovery.RecoverResource | src/local_agent/tools/container_resource_recovery_runtime.py:24-123 | A resource is called absent only after it was found and removed, or where the plan allows the absence of one that is not there; without failures exactly then, by the rule that HealthyRunSettles proves of the protocol. Nothing else changes. |
| StagingRecovery.RemoveResource | src/local_agent/tools/container_runtime.py:560-607 | A resource that is not pending is removed, and called absent only when it is gone. |
| StagingRecovery.RecoverVolumes | src/local_agent/tools/container_recovery_runtime.py:206-220 | All volumes are gone, and unless their absence is allowed each was there before; without failures exactly when each was. |
| StagingRecovery.RecoverContainer | src/local_agent/tools/container_recovery_runtime.py:122-225 | Answers "absent" only when no container and no volume at all can exist any more, and only if everything that has to be found could be; without failures exactly if it was there. |
| StagingRecovery.Acquire | src/local_agent/execution/container_staging_lifecycle.py:101-175 | The lock is exclusive: a lease is given only when it was free. |
| StagingRecovery.CloseUnreleased | src/local_agent/execution/container_staging_lifecycle.py:500-525 | An allocated or prepared attempt is closed only if its directory is the recorded object, for a prepared one with the recorded change time. |
| StagingRecovery.RecordAbsence | src/local_agent/execution/container_staging_lifecycle.py:536-568 | Proved absence is recorded, through execution_absent where an execution container could have existed. |
| StagingRecovery.RemoveRecovered | src/local_agent/execution/container_staging_lifecycle.py:739-757 | A record without a directory is removed in its exact version. |
| StagingRecovery.RecoverRecord | src/local_agent/execution/container_staging_lifecycle.py:494-583 | Without failures the one record found is finished exactly in the states that are finishable with the resources that are there, given a recoverer; ready implies that record and directory are gone; a state that nothing can finish stays as it is. |
| StagingRecovery.FindRecord | src/local_agent/execution/container_staging_lifecycle.py:451-493 | Leftover names, foreign directories, ambiguity and another workspace are refused; otherwise a current handle on the only record. |
| StagingRecovery.RecoverAuthority | src/local_agent/execution/container_staging_lifecycle.py:433-585 | Ready only with an empty authority, whatever fails; without failures and with an unchanged workspace, ready exactly for the recoverable states; a state that no engine could help with keeps its journal and attempt; a held lock changes nothing. |
| StagedOperation.CopySnapshots | src/local_agent/execution/container_staging.py:453-512 | Filling the attempt directory changes its change time but not its identity nor the journal. |
| StagedOperation.Reserve | src/local_agent/execution/container_staging_lifecycle.py:178-212 | The first record is stored exactly when the authority is empty and the record is valid; otherwise there is no handle. |
| StagedOperation.PrepareAttempt | src/local_agent/execution/container_staging.py:427-545 | From reserved to prepared, or stopped in a state before containers with the same attempt; without failures it gets through. |
| StagedOperation.StageSnapshots | src/local_agent/execution/container_staging.py:384-579 | Staged exactly from an empty authority with a valid first record; without failures the lease is left open exactly in every other case; a failure behind the reservation discards and closes, an interrupt only closes. |
| StagedOperation.KeptLeaseLocksOut | src/local_agent/execution/container_staging.py:401-422 | From any authority that is not empty: staging leaves its lease open, and then neither another staging nor a recovery of this process can begin. |
| StagedOperation.LeftoverKeepsTheLease | src/local_agent/execution/container_staging_journal.py:78-126 | One crash inside the first journal write of an empty authority gives such an authority, and one that recovery refuses. |
| StagedOperation.IssueCreate | src/local_agent/tools/container_volume_runtime.py:53-236 | From the moment a creation is issued the resource may exist; confirmed it is there, unconfirmed it may be there or come later. |
| StagedOperation.Prepare | src/local_agent/tools/container_volume_runtime.py:53-312 | Volumes and the prep container are created only in create_possible; prepared means that exactly the volumes are there and nothing is pending, and otherwise cleanup is claimed only when nothing may exist. |
| StagedOperation.CleanupVolumes | src/local_agent/tools/container_volume_runtime.py:315-389 | Verified only when nothing is left, each volume having been found first; without failures always, if the volumes are there. |
| StagedOperation.RunExecution | src/local_agent/tools/container_runtime.py:338-409 | The execution container is closed only when exactly the volumes are left and nothing is pending; an interrupt may leave it open. |
| StagedOperation.CloseVolumes | src/local_agent/tools/container_runtime.py:411-484 | Closure is claimed only when no resource may exist and container_absent is recorded. |
| StagedOperation.ExecuteCreated | src/local_agent/tools/container_runtime.py:304-484 | From prepared volumes to closure: the execution container may exist only behind execution_create_possible, and absence is recorded only when proved. |
| StagedOperation.ExecuteTransport | src/local_agent/tools/container_runtime.py:183-409 | Closed with a current handle means that nothing may exist; an exception may leave it at any stage; without failures and with a fitting binding it ends in container_absent. |
| StagedOperation.FinishOperation | src/local_agent/execution/container_staging.py:194-274 | Cleanup runs only for a closed operation, or after an exception before containers; otherwise record and directory stay for recovery. The lease is closed in every case. |
| StagedOperation.RunStaged | src/local_agent/execution/container_staging.py:163-274 | Cleaned up means an empty journal, an empty root and no resource; without failures from an empty authority it always ends so. |
| StagedOperation.Execute | src/local_agent/tools/container_runtime.py:79-181 | Staging starts only from a ready authority; without failures ready exactly for the recoverable states, which say what has to be there. |
| StagedOperation.CrashAndRecoverTwice | src/local_agent/execution/container_staging_lifecycle.py:433-585 | Crash at any point of any run and recover without further failure: recovery ends ready exactly for the recoverable states, and a second one then finds nothing to do. |
| StagedOperation.StuckForEver | src/local_agent/execution/container_durable_recovery.py:371-384 | A crash state that is not recoverable even with everything that can still exist is never finished, by any number of processes, whatever disk and engine do to them; journal and attempt stay as they were. |
| StagedOperation.CrashedRunsStaySafe | src/local_agent/execution/container_staging_lifecycle.py:433-585 | Recovery from any crash state, itself failing anywhere, extends the run: at every point of it each resource that may exist is answered for. |
| RecoveryProtocol.AdvanceKeepsValid | src/local_agent/execution/container_recovery.py:28-105 | Every plan and candidate that the parsers build satisfies its constructor, and the target of a run never changes. |
| RecoveryProtocol.AdvanceProgresses | src/local_agent/execution/container_recovery.py:324-379 | One result ends the run, or was accepted, raises the required event sequence and start time past it, and uses up a turn. |
| RecoveryProtocol.RunTerminates | src/local_agent/execution/container_durable_recovery.py:371-431 | Whatever the engine answers, a run is over after at most 10 query rounds, 20 results. |
| RecoveryProtocol.BoundariesAdvance | src/local_agent/execution/container_volume_recovery.py:424-482 | Over a whole retry chain the required event sequence strictly grows, and each further round starts at least half a second later still. |
| RecoveryProtocol.ConsumedNeverAccepted | src/local_agent/execution/container_recovery.py:412-451 | A result once consumed is never accepted again in the same run. |
| RecoveryProtocol.RetriesArePaced | src/local_agent/execution/container_recovery.py:357-379 | An accepted retry query started at least 500,000,000 ns after the result that caused it. |
| RecoveryProtocol.CleanupIsEarned | src/local_agent/execution/container_recovery.py:199-321 | A cleanup is owed only for the one resource that a clean query named and a later clean inspect showed to be owned by this attempt. |
| RecoveryProtocol.QueryObservesIff | src/local_agent/execution/container_durable_recovery.py:228-309 | A query leads to the inspect of a resource exactly when its answer is sound, within the limit, not empty, and names that one resource. |
| RecoveryProtocol.InspectOwesIff | src/local_agent/execution/container_durable_recovery.py:312-368 | An inspect leads to a cleanup exactly when its answer is sound and shows the resource owned. |
| RecoveryProtocol.RetryIff | src/local_agent/execution/container_recovery.py:324-354 | Asking again happens exactly below the limit, after a command that ended badly, or after a sound empty query answer where absence may not be concluded. |
| RecoveryProtocol.EmptyAnswersProveNothing | src/local_agent/execution/container_volume_recovery.py:231-305 | However many empty answers come (blank for a container, without any output for a volume), they never give a cleanup nor the absence of a container, and the absence of a volume only when the plan allows it. |
| RecoveryProtocol.AbsenceIsEarned | src/local_agent/execution/container_volume_recovery.py:231-305 | Over any run, absence is answered only for a volume whose plan allows it, on a clean empty answer. |
| RecoveryProtocol.HealthyRunSettles | src/local_agent/execution/container_durable_recovery.py:228-384 | With an engine that answers soundly and truthfully a run owes the cleanup of what is there, verifies an absence only where the plan allows it, and otherwise ends unresolved. |
| RecoveryProtocol.OrdinalDecodes | src/local_agent/execution/container_volume_recovery.py:87-92 | The ordinals of execution, prep and every volume root are disjoint and decode to resource and query round. |
| RecoveryProtocol.RecoveryQueriesAreDistinct | src/local_agent/execution/container_types.py:458-468 | Two recovery queries of an attempt with one command id are about the same resource and round. |
| InstanceProtocol.AdvanceKeepsValid | src/local_agent/execution/container_instance.py:36-242 | Every stage that a parser builds passes its constructor, and no step exchanges the cleanup handle. |
| InstanceProtocol.ObligationIsConserved | src/local_agent/execution/container_instance.py:357-748 | After the create result exactly one obligation stands in every later state: a cleanup handle for one container of this plan that never changes, the recovery obligation, or the unresolved mark. |
| InstanceProtocol.CreateLeavesOne | src/local_agent/execution/container_instance.py:357-397 | A create result leaves one obligation, and the unresolved mark exactly when it does not correlate. |
| InstanceProtocol.DischargedOnlyByAbsence | src/local_agent/execution/container_cleanup.py:150-214 | An obligation is discharged only by an absence check that was accepted for that container, whatever remove answered. |
| InstanceProtocol.AbsenceShownMeans | src/local_agent/execution/container_cleanup.py:217-256 | Such a check is correlated, complete, exit 0 and empty on both streams, under current authority. |
| InstanceProtocol.StagesAreEarned | src/local_agent/execution/container_instance.py:400-748 | A run that holds a stage accepted the result of every earlier stage, one a step, in order, for the same container. |
| InstanceProtocol.ReleaseNeedsEveryProof | src/local_agent/execution/container_instance.py:569-643 | Release lies behind accepted start, readiness, workspace proof and an inspect that showed this container running, owned, with exactly the planned mounts, and as planned otherwise. |
| InstanceProtocol.RunEnds | src/local_agent/execution/container_instance.py:357-748 | Every run has ended after 11 results, whatever they are. |
| InstanceProtocol.GoodRunDischarges | src/local_agent/tools/container_instance_runtime.py:43-441 | For every container and every plan whose mounts can be matched there are results that lead through all stages to a discharged obligation. |
| KeyedLists.ScanIsExact | src/local_agent/execution/container_verification.py:264-311 | A scan with a dictionary of planned keys and a set of observed ones accepts a list of the planned length exactly when the plan has distinct keys and the list is a rearrangement of it, every item fitting. |
| MountMatching.HostMountsMatch | src/local_agent/execution/container_verification.py:258-311 | Accepts exactly the rearrangements of a plan with distinct targets, all compared fields equal. |
| MountMatching.RuntimeItemMatches | src/local_agent/execution/container_verification.py:325-357 | One item: a writable scratch mount at /tmp, or a planned mount with all compared fields equal. |
| MountMatching.RuntimeMountsMatch | src/local_agent/execution/container_verification.py:314-362 | Accepts exactly the scans in which every destination is new, every item fits and every planned destination occurs; never for a plan with a mount at /tmp. |
| MountMatching.RuntimeScanIsExact | src/local_agent/execution/container_verification.py:314-362 | Such a scan holds exactly for the rearrangements of the plan, with or without one writable scratch mount at /tmp. |
| MountMatching.BothAcceptedIff | src/local_agent/execution/container_verification.py:258-362 | Both matchers together accept exactly two rearrangements of a plan with distinct targets and none at /tmp. |
| MountMatching.ReportsAccepted | src/local_agent/execution/container_verification.py:258-362 | Every such plan has reports that both matchers accept. |
| MountMatching.PreparedHostMountsMatch | src/local_agent/execution/container_volume.py:450-477 | Accepts exactly the rearrangements of the planned volumes, although a foreign item without a source passes inside the loop. |
| MountMatching.PreparedRuntimeMountsMatch | src/local_agent/execution/container_volume.py:480-506 | The same for the mounts of the running prep container. |
| MountPlanning.ValidateRootLayout | src/local_agent/execution/container_plan.py:761-778 | Accepts exactly the layouts in which no root overlaps a managed path or another root. |
| MountPlanning.DestinationsApart | src/local_agent/execution/container_plan.py:684-718 | The destinations of a plan from a valid layout do not overlap one another. |
| MountPlanning.PlanOrder | src/local_agent/execution/container_plan.py:684-718 | The readable mounts follow in text order, and a mount is a volume exactly when its root was staged; otherwise source and destination agree. |
| MountPlanning.CoveredByExactlyOne | src/local_agent/execution/container_plan.py:684-718 | Every path below an authorized root lies in exactly one planned mount, writable exactly when it lies in the workspace and writing is allowed. |
| MountPlanning.PlannedTargets | src/local_agent/execution/container_plan.py:761-778 | A plan from a valid layout has distinct target texts and none at /tmp, so both matchers are exact for it. |
| DirectoryRemoval.RemoveDirectoryContents | src/local_agent/execution/container_staging_files.py:20-43 | On any finite tree with any modes: terminates, nothing is refused, everything below is gone and all else is unchanged. |
| FileTrees.FileTree.OpenDirectory | src/local_agent/execution/container_staging.py:672-686 | Opening component by component succeeds exactly when every component is a readable directory below a searchable one. |
| SnapshotCopy.AncestorsFirst | src/local_agent/workspace/snapshot.py:345-346 | The order by UTF-8 relative path puts every ancestor before what lies below it. |
| SnapshotCopy.SortedIsDeepestFirst | src/local_agent/execution/container_staging.py:654-658 | The directories are reordered deepest first, none lost. |
| SnapshotCopy.Place | src/local_agent/execution/container_staging.py:630-653 | An entry is made in its parent, refused only for a snapshot with a repeat or a missing parent. |
| SnapshotCopy.ApplyModes | src/local_agent/execution/container_staging.py:654-668 | No mode change is refused, because everything above it is still private, and the tree is then exactly the snapshot. |
| SnapshotCopy.CopySnapshot | src/local_agent/execution/container_staging.py:626-669 | Copying into an empty directory succeeds exactly for canonical snapshots without repeats and missing parents, and yields exactly path, kind, mode and content. |
| HistoryRecords.EscapesDecode | src/local_agent/frontends/composer_history.py:230-233 | Escaping as in section 7 of RFC 8259 is undone by reading, in front of any rest. |
| HistoryRecords.RecordSize | src/local_agent/frontends/composer_history.py:10-15 | A record is at most 6 times its prompt and 20 bytes, so never over the record limit nor the file limit. |
| HistoryRecords.RecordReadsBack | src/local_agent/frontends/composer_history.py:161-182 | A record is read back exactly when its prompt has none of U+0085, U+2028 and U+2029; otherwise the file cannot be loaded. |
| HistoryRecords.RewrittenLoads | src/local_agent/frontends/composer_history.py:196-218 | A rewritten file loads to its entries exactly when all are free of these characters. |
| HistoryRecords.AppendedLoads | src/local_agent/frontends/composer_history.py:184-194 | Appending a record adds exactly its entry to what the file loads to, or makes it unloadable. |
| HistoryRules.LongestFittingIsLongest | src/local_agent/frontends/composer_history.py:143-159 | What trimming keeps is a suffix that fits both limits, no longer suffix fits, and the newest entry is kept. |
| HistoryRules.RecallIsWalkIff | src/local_agent/frontends/composer_history.py:77-101 | Recall fed its own output is a walk clamped at the oldest entry and at the empty draft, on all runs exactly when no entry has a newline. |
| ComposerHistories.ComposerHistory.constructor | src/local_agent/frontends/composer_history.py:29-38 | A new history is enabled exactly when its file can be loaded, and then holds what the file loads to. |
| ComposerHistories.ComposerHistory.Rebind | src/local_agent/frontends/composer_history.py:108-138 | Binding again to the same file keeps everything; any other binding loads the file or disables persistence. |
| ComposerHistories.ComposerHistory.TrimMemory | src/local_agent/frontends/composer_history.py:143-159 | Leaves the longest fitting suffix, reports whether anything was dropped, and its last break is never needed. |
| ComposerHistories.ComposerHistory.Append | src/local_agent/frontends/composer_history.py:53-75 | While persistence is enabled the file loads to the entries in memory after every append, if all can be read back; an entry that cannot makes loading fail. |
| ComposerHistories.ComposerHistory.Persist | src/local_agent/frontends/composer_history.py:63-75 | On the append path and on the rewrite path alike the file agrees with memory, or persistence is disabled. |
| ComposerHistories.ComposerHistory.Navigate | src/local_agent/frontends/composer_history.py:77-101 | Recalls exactly for a caret at an end of the text last shown, and then moves one clamped position. |
| MarkdownRows.SplitMarkdownRow | scripts/sync_project_excel.py:79-116 | The loop computes the split that the round trip is about. |
| MarkdownRows.RowRoundTrip | scripts/sync_project_excel.py:79-116 | Splitting a row joined from cells with escaped pipes gives the cells exactly when none ends with a backslash and only the last leaves a code span open. |
| MarkdownRows.CellReadsBack | scripts/sync_project_excel.py:91-115 | A written cell is read back character by character in front of a separator or the end. |
| MarkdownRows.BackslashSwallows | scripts/sync_project_excel.py:93-96 | A cell that ends with a backslash swallows the separator behind it. |
| SpreadsheetCells.ColumnName | scripts/sync_project_excel.py:209-214 | The letters computed are the name of the column. |
| SpreadsheetCells.NameHasIndex | scripts/sync_project_excel.py:209-214 | Every positive column has a nonempty name that stands for it. |
| SpreadsheetCells.IndexHasName | scripts/sync_project_excel.py:209-214 | Every word over A to Z is the name of its column: columns and names correspond one to one. |
| SpreadsheetCells.CellRefsDiffer | scripts/sync_project_excel.py:167-173 | Cells with one reference have the same column and row. |
| WriteTimeline.LastWorkspaceWriteIndex | src/local_agent/evidence/timeline.py:58-63 | The index is a write with no write behind it, or -1 without any. |
| WriteTimeline.EffectiveWorkspaceWritePaths | src/local_agent/evidence/timeline.py:106-128 | The loop over results and paths builds the dictionary that the next row is about. |
| WriteTimeline.EffectiveIffLastMention | src/local_agent/evidence/timeline.py:106-128 | A normalized path is in the effective set exactly when the last write that mentions it left it changed. |
| DeliveryFindings.TestPassedIff | src/local_agent/evidence/verification.py:197-211 | The test item passes exactly when a write is in effect and the latest test run behind the last write succeeded. |
| DeliveryFindings.DiffPassedIff | src/local_agent/evidence/timeline.py:90-103 | After a write of this run the diff item passes exactly when a later diff that is not empty names a path in effect. |
| DeliveryFindings.NewWriteMovesOff | src/local_agent/evidence/verification.py:185-211 | A new write moves the test item off passed, and the diff item too while any write is in effect. |
| DeliveryFindings.RollbackKeepsDiffPassed | src/local_agent/evidence/verification.py:185-195 | A concrete run after which a rollback of its only write gives no finding about the diff, although the diff had passed. |
| DeliveryFindings.DiffFindingIff | src/local_agent/evidence/verification.py:185-195 | The diff item gets a new finding exactly when a write is in effect. |
| DeliveryFindings.EvidenceExists | src/local_agent/evidence/timeline.py:142-162 | The evidence list is empty exactly when no result qualifies. |
| VerificationPlans.VerificationPlan.Set | src/local_agent/evidence/verification.py:256-264 | Changes the first item with the id and no other, keeps four references, and reports a real change. |
| VerificationPlans.VerificationPlan.RecordAttempt | src/local_agent/evidence/verification.py:236-254 | Counts one attempt on each watched item and nothing else. |
| VerificationPlans.VerificationPlan.Observe | src/local_agent/evidence/verification.py:165-212 | Each item has its derived finding and the attempts of the results not seen before; the answer says whether anything changed. |
| VerificationPlans.VerificationPlan.ObserveAll | src/local_agent/evidence/verification.py:165-212 | Over any run of observations of a growing list the diff item holds what the last of them with a finding set, the other items what the last one gives, and each result is counted once. |
| VerificationPlans.DiffItemPassedIff | src/local_agent/evidence/verification.py:185-195 | After such a run the diff item is passed exactly when the last observation with a write in effect showed the change, or there was none and it was passed before. |
| VerificationPlans.RolledBackItemStaysPassed | src/local_agent/evidence/verification.py:185-195 | A concrete run of three observations after which no write is in effect and the diff item is passed. |
| ToolBatches.PlanRemainingBatch | src/local_agent/runtime/explore.py:187-238 | Suppresses a run of calls directly behind the current one, and goes on only if a call is left. |
| ToolBatches.EachCallAnsweredOnce | src/local_agent/agent.py:643-769 | For every batch and every way out of it each call is answered exactly once and in order, if the ids suffice for a batch that goes on. |
| ToolBatches.AnsweredOnceAsDecided | src/local_agent/runtime/explore.py:43-79 | With the decisions that the exploration phase really returns, no condition is left. |
| ToolBatches.AnsweredOnceIff | src/local_agent/runtime/explore.py:187-238 | Whatever the plans and the turns, each call is answered exactly once and in order if and only if every call but the first and last has an id and no call but the first shares its id with a later one. |
| ToolBatches.AgentLoop.AppendToolResult | src/local_agent/agent.py:1511-1566 | Appends one message with the id and the name of its call, and records one result. |
| ToolBatches.AgentLoop.AppendSynthetic | src/local_agent/agent.py:1579-1595 | Answers exactly the given calls, in order. |
| ToolBatches.AgentLoop.RunBatch | src/local_agent/agent.py:643-769 | The messages appended answer the calls that the rules give; at most one user message lies among them, and the way out is justified by some turn. |

## Left out

- System calls, descriptors, flock, fsync, umask and ownership: steps of an abstract disk with change times, file versions and a fault before or after each call.
- The 64 KiB limit of a journal record: a failing write covers it.
- JSON text: documents arrive decoded, objects as member lists in key order. Only the history's own record layout is read from text; other layouts and surrogate escapes are refused there.
- Inspect templates are constants; their text does not matter to the protocols.
- The inspected fields other than identity, ownership, state and mounts (environment, capabilities, namespaces, limits, logging, health check, tmpfs options): one truth value, `policyMatches`.
- Reason codes of the query, inspect and instance parsers: the outcome is kept, the text is not.
- The staged content of an attempt inside the crash model is a count of objects; `StagingFiles` has the trees.
- Snapshot capture, workspace deltas and the observation of staged output: a fault or a result around cleanup.
- The runtime's deadlines, cancellation and timeouts: arbitrary results and faults.
- Building engine, probe and image authority, image inspection, and the create command line of a plan.
- Case mapping outside ASCII in normalized paths, and the wording rules that call a diff empty or a result a dry run: inputs of a result.
- VerificationPlans.VerificationPlan.ObserveAll: says nothing of lists that shrink between observations, because a run only appends results.
- Decisions of the evidence, steering and review phases inside a tool batch: arbitrary inputs of each turn.
- Contract items, continuation, rendering and patch review of the verification plan: only `observe` and what it sets.
- History files written by other processes, and lone surrogates in prompts.
- The XML parts of the workbook, column widths and number detection: expressions without an invariant.
- `source_tree_digest`, configuration, providers, LSP, terminal user interface and the benchmarks.
- StagedOperation.CopySnapshots: states only what the crash model needs of the copy, the identity of the directory and the journal; the content is stated by SnapshotCopy.CopySnapshot.
- StagingRecovery.RecoverResource: takes the query, inspect and retries of one resource as one call that may fail; RecoveryProtocol has them one by one.
- StagedOperation.RunStaged: says nothing of the value that the operation returns, only of what is left behind.
- ComposerHistories.ComposerHistory.Append: after a failed write nothing is said of the file, because persistence is then disabled.
