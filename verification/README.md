# Lane harness: verified model

The lane harness runs coding agents in "lanes". It must stay correct while processes crash
at any step, PIDs are reused, controllers run side by side, and retries repeat work that was
half done. This project models the parts that carry that burden and proves what they promise,
over every input and every run.

| module | what it models |
|---|---|
| `CacheTransaction` | the crash-safe replacement of the installed super-cache: stage, backup, durable record, inspection gate, rollback, recovery |
| `ProcessBoundary` | the fixed-point observation of a provider's processes over a changing process table, and cleanup with proof of absence |
| `CoordinateGraph`, `Scheduler`, `LiveMatrix` | the live matrix: cycle-detecting Merkle digests, the ready-node scheduler, retained rows |
| `Ingest` | the attention watcher: chunked log reading, the durable timeline and cursor, crashes between their writes |
| `Coverage` (with `Sorting`) | the two interval-coverage deciders, over real time |
| `Leases`, `Controller` | all-or-nothing leases and the attempt/correction loop, for any number of interleaved controllers |
| `ReviewPair` | publication, replay and repair of the linked review and acceptance records |
| `ManagerQueue` | the event queue and the promote-then-archive outbox |
| `CommandSegments` (with `Strings`) | the PowerShell chain lexer |
| `ReleaseChecks` | selecting release checks, preserving PASS credit, merging a run into the checkpoint |

State that the program updates in place is a class whose methods follow the program's own
steps and are proved against functions and predicates on values; the laws are lemmas about
those. What an operation decides is stated on its rows, records, trees and characters, not through
the predicates that it evaluates. A crash or an interleaving is an arbitrary input: a fault script for each file-system
mutation, a table script for each query of the operating system, a crash point for each
durable write, a list of turns or actions. Results about whole runs are the methods
`Lives`, `RecoverThrough`, `Calls`, `ScheduleCoordinates`, `Rounds`, `Interleave`,
`CallsKeepPair`, `RetriesConverge`, `Operate` and `RunAndMerge`, and the lemma `ResumeExactly`.

`dafny verify dfyconfig.toml` checks everything.

## Where the code does not do what one would like

Each of these is proved, with an input or a run that shows it and the exact condition of it.

- The inspection gate of the super-cache also accepts a disk on which the prior tree is both live and backed up.
  Recovery deletes that backup, and a crash in the middle leaves a disk the gate refuses (`DuplicatePriorStrands`);
  an accepted backup may be deleted in any number of steps exactly if that is not so (`InterruptibleExactly`).
  No crash of the program itself creates such a disk.
- Between the identity check and the signal of one termination the process may exit and its PID be reused; the run
  `ProcessBoundary.WindowAdmitsVictim` signals the other process. `HitsExactly`: a signal reaches its target exactly if
  the target is still live one change of the table after its check; otherwise it reaches nobody, or a process that
  had not started by the time of that check. `Calls` carries this to every signal of every run.
- If the deadline passes between the clock check of a turn (line 400) and its first attempt to start something
  (line 416) while nothing runs, everything pending is reported as blocked although nothing is missing: the run
  `Scheduler.DeadlineBlocksReady`. `BlockedOnlyIfCaught`, for every clock: a coordinate that lacks nothing and waits in
  no cycle is blocked exactly if that happened while it was pending. What the clock does otherwise is in `Verdicts`:
  nothing starts at or after the deadline, and exactly what a late check finds pending is reported as exhausted.
- In the same run the blocked row names no missing dependency. `BlockedNamesNothingExactly`, for every run: the list of
  a blocked row is empty exactly if no dependency is unknown and, when the last turn began, each had a row or was
  pending in front of it in the order of the report. In a cycle the first member to be reported always names something
  (`FirstLeftoverMissesSomething`).
- A log file that is truncated and grows again between two polls, keeping its identity and reaching at least the
  length already read, is read as a continuation: the run `Ingest.RegrowthIsMisread` yields a line that the file never
  had. `MisreadExactly`: what a poll delivers are lines of the file, and the first of them is one, exactly if the file
  still holds the carried bytes where they were read, at the start of a line. One record per id, and an account of
  every line read, hold even then (`Rounds`).
- With an empty commit the first call publishes a review pair that no retry accepts and that the monitor removes:
  the run `ReviewPair.UncommittedPairIsNotReplayable`. A pair is valid, and an interrupted call can be completed,
  exactly if every identifying field is nonempty (`PairIsValidExactly`, `InterruptedThenRetried`).
- With a colon in a lane's name, signals of two lanes can share one deduplication key, and the second is archived
  against the first one's event (`ManagerQueue.NoticeKeysCollide`). `NoticeKeysCollideExactly`: two lanes and runs have
  signals that collide if and only if one `lane:run:` text is a prefix of the other.
- Archiving a notice over an archived one of the same name drops the older file: the run
  `ManagerQueue.ArchiveOverwrites`. `Outbox.Drain`: a file leaves the archive exactly if another file of its name waits,
  may be promoted, differs from it, and is drained without a fault; its event stays.
- The merge of a well-formed run can be refused: the run `ReleaseChecks.PaddedIdIsRefused`, whose only unit has the id
  " a" and ends unresolved. `MergeIsValidExactly`: it is refused exactly if the first unresolved unit's id is padded with
  white space and its stripped form names neither another unit that did not pass nor a disposition left standing.
  With stripped ids every well-formed run merges (`MergeTrimmedRun`, `RunAndMerge`).

## Model

| member | source | states |
|---|---|---|
| CacheTransaction.ManifestInjective | orchestrator_harness/setup.py:409-420 | two trees with one manifest are the same tree, so comparing manifests compares directories, files and bytes |
| CacheTransaction.ValidInstallIsPlanTree | orchestrator_harness/setup.py:438-458 | the three checks (directory names, file names, bytes file by file) hold exactly for the one tree the plan describes |
| CacheTransaction.PlanTreeExactly | orchestrator_harness/setup.py:421-436 | the planned tree holds exactly the planned files with their bytes and, as directories, exactly their proper nonempty ancestors |
| CacheTransaction.InspectionOfCleanDisk | orchestrator_harness/setup.py:617-683 | without a record, the gate passes exactly if nothing is in flight and the live tree may be replaced, and reports a valid live tree exactly for the planned one |
| CacheTransaction.GateAcceptsExplained | orchestrator_harness/setup.py:628-658 | with a record, the gate passes exactly the disks whose every artifact the record explains |
| CacheTransaction.GateReadsTrees | orchestrator_harness/setup.py:628-658 | the same on the trees themselves: known names only, a stage of planned paths, a backup of unchanged prior entries that is complete unless the target is live, and a live tree that is target, prior, or, next to a backup, of planned paths |
| CacheTransaction.ReachablePassesGate | orchestrator_harness/setup.py:601-658 | every disk a crash can leave behind passes the inspection that precedes recovery |
| CacheTransaction.DispatchExact | orchestrator_harness/setup.py:461-470 | dispatch goes ahead if and only if live is exactly the plan and there is no record, backup or stage |
| CacheTransaction.CompleteCopySurvives | orchestrator_harness/setup.py:716-762 | on every reachable disk a complete prior tree is live or in the backup, or the target is live; without a prior tree live is absent or the target; without a record nothing but live exists |
| CacheTransaction.DuplicatePriorStrands | orchestrator_harness/setup.py:649-653 | an accepted disk with the prior tree live and in the backup; an interrupted recovery of it is refused |
| CacheTransaction.InterruptibleExactly | orchestrator_harness/setup.py:704-705 | deleting an accepted backup may stop anywhere without stranding the disk, if and only if the prior tree is not also live (or the backup is empty) |
| CacheTransaction.StageShrinks | orchestrator_harness/setup.py:697-698 | deleting any part of the stage keeps the disk recoverable, with the same outcome, and lowers the remaining work by what was deleted |
| CacheTransaction.BackupShrinks | orchestrator_harness/setup.py:704-705 | with the target live the same holds for deleting any part of the backup |
| CacheTransaction.JunkMovesAside | orchestrator_harness/setup.py:699-702 | moving a partial live tree onto the stage name keeps the disk recoverable with the same outcome |
| CacheTransaction.BackupRestores | orchestrator_harness/setup.py:703 | moving the backup back makes live the recorded prior tree |
| CacheTransaction.RecordRetires | orchestrator_harness/setup.py:706-713 | the record may be removed once stage and backup are gone: live is then exactly target or prior |
| CacheTransaction.SwapPhases | orchestrator_harness/setup.py:730-752 | the renames of the swap and of its rollback lead only between three recoverable phases, and never onto an existing tree |
| CacheTransaction.PhasesAreConsistent | orchestrator_harness/setup.py:794-825 | staging and promotion are recoverable, to the prior tree before the promotion and to the target after it |
| CacheTransaction.NextFile | orchestrator_harness/setup.py:808-815 | any part of copying the next file leaves only planned paths in the stage, even with torn bytes, and the whole of it extends the staged tree by exactly that file |
| CacheTransaction.KnownGrowsByTarget | orchestrator_harness/setup.py:782-801 | an installation adds at most its own target to the trees a disk can settle on |
| CacheTransaction.RuntimeRoot.RemoveTree | orchestrator_harness/setup.py:596-598 | deletion is complete or leaves a subset of unchanged entries; every entry costs one step |
| CacheTransaction.RuntimeRoot.Recover | orchestrator_harness/setup.py:686-713 | whatever faults hit it, recovery keeps the disk recoverable to the same outcome, spends no more steps than the remaining work, and without faults ends with no record, stage or backup; a backup or a live tree that is nobody's it refuses and leaves where it is |
| CacheTransaction.RuntimeRoot.CopyPlan | orchestrator_harness/setup.py:808-815 | the stage holds only planned paths at every moment and exactly the planned tree at the end; it takes one step for each entry of that tree, and raises if one of them does |
| CacheTransaction.RuntimeRoot.Promote | orchestrator_harness/setup.py:731-735 | the guarded renames end in one of the three recoverable phases, promoted if undisturbed; they raise exactly if one of their steps does |
| CacheTransaction.RuntimeRoot.RollBack | orchestrator_harness/setup.py:737-752 | the rollback stays within the recoverable phases, has restored the staged phase when it completes, and completes unless a fault hits it |
| CacheTransaction.RuntimeRoot.ReplaceTree | orchestrator_harness/setup.py:716-762 | an existing backup is refused untouched; otherwise the disk stays recoverable and success leaves only the target, live; if a single step raises, up to the validation the swap is undone to the very same disk, and behind it the target stays live |
| CacheTransaction.RuntimeRoot.Perform | orchestrator_harness/setup.py:802-825 | success exactly if the record is gone, and then only the planned tree is there, live; if a single step raises, up to the validated swap the prior tree is in place without a backup, and from then on the target is |
| CacheTransaction.RuntimeRoot.Abandon | orchestrator_harness/setup.py:826-839 | the handler keeps the disk recoverable and the live tree as it is; without faults it discards the stage and drops the record exactly if the prior state is back in place, and never otherwise |
| CacheTransaction.RuntimeRoot.Install | orchestrator_harness/setup.py:765-842 | from any recoverable disk an installation, dying anywhere, leaves a recoverable disk that stands for the old tree or the target; success leaves exactly the plan and nothing else; without faults it succeeds exactly if the settled tree may be replaced; if a single step raises on a disk with nothing in flight, the disk is as it was, up to the validated swap, and has the target live behind it; nothing happens after a death |
| CacheTransaction.Lives | orchestrator_harness/setup.py:765-842 | over any number of installations of any plans, each dying anywhere and each made on what the one before left, the disk stays recoverable and can settle only on the first tree or on one of the targets; every installation that nothing disturbs succeeds exactly if it may |
| CacheTransaction.RecoverThrough | orchestrator_harness/setup.py:686-713 | recovery interrupted any number of times converges, within the initial work in total, to the outcome fixed before the first attempt |
| ProcessBoundary.HitsExactly | orchestrator_harness/processes.py:129-153 | a checked signal reaches its target exactly if the target is still live on delivery, and another process exactly if the PID was reused in between; that process had not started by the check |
| ProcessBoundary.WindowAdmitsVictim | orchestrator_harness/processes.py:129-153 | a run of the termination whose signal hits another incarnation |
| ProcessBoundary.OperatingSystem.Terminate | orchestrator_harness/processes.py:111-158 | exactly one signal, checked to be live at the moment before, if the PID is found alive twice and then proves the exact identity; otherwise none, and there was a moment at which it could not be signalled; True exactly if the PID was not alive to begin with or is gone after the signal |
| ProcessBoundary.OperatingSystem.IdentityMatches | orchestrator_harness/processes.py:100-108 | true exactly if the incarnation is alive and proves its identity at two successive queries |
| ProcessBoundary.Boundary.SnapshotIdentityBound | orchestrator_harness/processes.py:1232-1257 | membership on a snapshot fact is granted exactly to the incarnation the snapshot described; an unreadable instant and another one are different errors |
| ProcessBoundary.Boundary.SelectMembers | orchestrator_harness/processes.py:1287-1307 | without new errors every row of the group and every row of the session is captured unless its PID was free meanwhile, and every recorded incarnation that still runs; nothing else is; every new error is genuine |
| ProcessBoundary.Boundary.AdmitChild | orchestrator_harness/processes.py:1312-1343 | a child enters only while the captured incarnation of its parent is live, and only as the snapshot's incarnation; the lineage records both moments; the pass is given up only if that parent, found live before, no longer proves itself; otherwise there is a genuine error or the child's PID was free |
| ProcessBoundary.Boundary.AddDescendants | orchestrator_harness/processes.py:1308-1343 | the loop ends; its result is the least set above the members that the children it could vouch for generate, and without errors it is closed under snapshot children, but for free PIDs; it is given up only for a drifted parent |
| ProcessBoundary.MembersLieInClosedSets | orchestrator_harness/processes.py:1283-1343 | what is captured lies in every set that contains the seeds and is closed under snapshot parent links |
| ProcessBoundary.ClosureContains | orchestrator_harness/processes.py:1287-1343 | what a successful observation leaves out: of the rows of the root's group, of its session, and of the children of anything captured, only those whose PID was free at some moment |
| ProcessBoundary.LeastGrows | orchestrator_harness/processes.py:1312-1343 | admitting a child of a captured process keeps the captured set least |
| ProcessBoundary.CoverageSteps | orchestrator_harness/processes.py:1312-1317 | a row passed over without change is covered: captured, not a child, or its PID was free |
| ProcessBoundary.LinealGrows | orchestrator_harness/processes.py:1299-1343 | a capture grounded in a record, in group or session, or in an earlier capture live as its parent extends the lineage |
| ProcessBoundary.LinealIsFounded | orchestrator_harness/processes.py:1287-1343 | what every capture rests on, on the rows themselves: a recorded incarnation, a row with the group or the session, or the parent row of an earlier capture |
| ProcessBoundary.Boundary.CheckRoot | orchestrator_harness/processes.py:1271-1282 | the last row of the root's PID passes only if the root's incarnation was live, and is refused only for a genuine reason; it alone tells a missing group and session |
| ProcessBoundary.Boundary.Observe | orchestrator_harness/processes.py:1259-1349 | success exactly if the snapshot is complete and no error was ever reported, and each new error means something that was the matter since the observation began; owned identities are kept, and whatever enters has a lineage of this observation, down to recorded incarnations and members, each live when captured and each parent live when its child was; after success the root's row is the root's, and the captured set, every PID of it owned as an incarnation of the lineage, is least and closed but for PIDs that were free meanwhile; written out on the rows, each row of the group, of the session, or below something captured is captured or its PID was free, and each capture has its ground; a drifted parent is the last error and nothing new is owned then, and an incomplete snapshot adds its own problems and nothing else |
| ProcessBoundary.ParentUnproven | orchestrator_harness/processes.py:1318-1337 | a parent that no longer proves itself was live when captured: the drift that is reported took place |
| ProcessBoundary.Boundary.Remaining | orchestrator_harness/processes.py:1365-1375 | every owned incarnation not in the answer is gone, whatever changed meanwhile, and every one in it was seen live during the call; no answer only if a PID found alive proved no identity |
| ProcessBoundary.Boundary.Cleanup | orchestrator_harness/processes.py:1377-1438 | nothing is signalled unless the first observation succeeds; if it does, its whole closure and everything recorded is owned, and every such incarnation is signalled if it can be, those of the root's PID last, whatever later observations say; every signal is aimed at an owned incarnation that was live at its check; True only with no error and no owned incarnation live, and False after a successful observation only if a later one fails, something cannot be told, or something owned was seen live after all the rounds; the signals of the first sweep are forced exactly if the call asks for it, and those of the later rounds always |
| ProcessBoundary.Boundary.TerminateOwned | orchestrator_harness/processes.py:1415-1423 | every owned incarnation is dealt with, and none of the root's PID before all others |
| ProcessBoundary.Boundary.AwaitGone | orchestrator_harness/processes.py:1424-1438 | each round forcibly deals with exactly what it saw live; the answer is True only on a proof of absence, and False only for a failed observation, a PID that proves no identity, or something seen live after the last round |
| ProcessBoundary.Calls | orchestrator_harness/processes.py:1259-1438 | over any sequence of calls with PIDs reused between them: every successful observation owns the closure of its snapshot, every cleanup that sees its boundary deals with that closure and any other signals nothing, True from a cleanup means all then owned were gone; errors stick and make every later answer False; every signal is aimed at an owned incarnation live at its check and reaches it exactly if it is live on delivery, never a process that had started by the check; every successful observation contains what its rows say |
| CoordinateGraph.DigestExact | examples/v2_live_matrix.py:297-331 | with an injective hash two digests are equal if and only if runner, file hashes and content agree over the whole upstream cone |
| CoordinateGraph.SameConeSameDigest | examples/v2_live_matrix.py:329-331 | equal cones give equal digests, by induction along the dependency order |
| CoordinateGraph.StackClosesCycle | examples/v2_live_matrix.py:300-302 | meeting a name that is being visited exhibits a set of coordinates that wait for each other |
| CoordinateGraph.RankedIsAcyclic | examples/v2_live_matrix.py:297-335 | an order in which dependencies come first excludes every cycle |
| CoordinateGraph.GraphOfIndexes | examples/v2_live_matrix.py:277-281 | with distinct names the index by name holds exactly the coordinates |
| CoordinateGraph.DigestSearch.Visit | examples/v2_live_matrix.py:297-331 | the memoised search extends the table of correct digests, or reports a real cycle or a really missing file |
| CoordinateGraph.Coordinates | examples/v2_live_matrix.py:269-335 | success if and only if, on the list itself, names are distinct, every dependency is another listed coordinate named once, no resource is empty, budgets lie in (0, 3600], hashes are an object, every consumed file is present, and no set of coordinates depends on itself in a circle; a repeated name has its own error; then every coordinate is bound to its fields, its files, the runner and the digests of its dependencies |
| CoordinateGraph.AcceptedExactly | examples/v2_live_matrix.py:277-335 | the checks on the index by name accept exactly the well-formed lists without a circle |
| Scheduler.StartIsSafe | examples/v2_live_matrix.py:406-422 | starting a ready coordinate keeps the partition, the slot limit, disjoint resources with held their union, and dependencies before dependents |
| Scheduler.FinishIsSafe | examples/v2_live_matrix.py:424-440 | collecting a finished coordinate keeps them too, and its row names exactly the dependencies that did not succeed |
| Scheduler.DropIsSafe | examples/v2_live_matrix.py:392-405 | reporting a coordinate without running it keeps them too |
| Scheduler.StuckNeverStarts | examples/v2_live_matrix.py:406-412 | what is ready or lacks a dependency waits in no cycle |
| Scheduler.LeftoversAreStuck | examples/v2_live_matrix.py:442-448 | what is pending when nothing runs and nothing is ready waits for itself |
| Scheduler.AccountedCaught | examples/v2_live_matrix.py:416-448 | what is reported as blocked after a late first attempt is accounted for by that reading of the clock, and by nothing else |
| Scheduler.AccountedExhausts | examples/v2_live_matrix.py:400-405 | what a late check finds pending is exactly what is reported as exhausted |
| Scheduler.AccountedStarts | examples/v2_live_matrix.py:406-422 | a start is accounted for by a reading before the deadline, and is never that of a coordinate waiting in a cycle |
| Scheduler.EndVerdicts | examples/v2_live_matrix.py:391-448 | the end of every run with any clock: who was started, who is exhausted and who is blocked, each exactly |
| Scheduler.BlockedOnlyIfCaught | examples/v2_live_matrix.py:400-448 | for every clock, a coordinate that lacks nothing and waits in no cycle is blocked if and only if a turn's check read the clock before the deadline and its first attempt at or after it, with nothing running and the coordinate pending |
| Scheduler.UndelayedBlocksExactly | examples/v2_live_matrix.py:391-448 | with no late reading exactly the missing and the greatest waiting set are blocked and all others started |
| Scheduler.WaitersAreStuck | examples/v2_live_matrix.py:442-448 | the waiting coordinates form the greatest set that waits for itself |
| Scheduler.DeadlineBlocksReady | examples/v2_live_matrix.py:400-448 | a run in which a coordinate that needs nothing is reported as blocked, and its row names nothing missing |
| Scheduler.BlockedNamesNothingExactly | examples/v2_live_matrix.py:393-448 | over every run, a blocked row names nothing missing if and only if every dependency is known and, when the last turn began, had a row or was pending in front of it |
| Scheduler.NamesNothingExactly | examples/v2_live_matrix.py:442-448 | the list written for a left-over coordinate is empty exactly if each dependency had a row or gets one first |
| Scheduler.FirstLeftoverMissesSomething | examples/v2_live_matrix.py:442-448 | the first member of a waiting set to be reported names a dependency |
| Scheduler.ReportMissing | examples/v2_live_matrix.py:393-399 | exactly the pending coordinates with an unknown dependency get a row, which names every such dependency |
| Scheduler.MissingInOrder | examples/v2_live_matrix.py:394-399 | missing dependencies are named in the order in which the coordinate lists them |
| Scheduler.DropPending | examples/v2_live_matrix.py:400-405 | everything pending, and nothing else, gets the verdict; a blocked row names what had no row when its turn came |
| Scheduler.LeaveIdle | examples/v2_live_matrix.py:442-448 | what is left with nothing running is reported as blocked because it waits for itself or the deadline caught it, and its row names exactly the dependencies without a row at its turn |
| Scheduler.ScheduleReady | examples/v2_live_matrix.py:406-422 | starts only safely and only on a reading before the deadline; unless the deadline has passed, nothing is left pending that has a free slot, all its dependencies' rows, and no provider or exclusive resource in common with what runs; if nothing runs afterwards, nothing was ready or the first attempt came too late |
| Scheduler.Collect | examples/v2_live_matrix.py:424-441 | every finished coordinate, and no other, leaves the running set with the verdict it reported, or an error |
| Scheduler.RunsApart | examples/v2_live_matrix.py:338-339 | over a whole run, what runs together is at most two coordinates that share neither a provider, its home, nor an exclusive resource |
| Scheduler.Turn | examples/v2_live_matrix.py:391-448 | every turn makes progress, through safe states only, and every change is accounted for by its reading of the clock |
| Scheduler.ScheduleCoordinates | examples/v2_live_matrix.py:372-448 | the loop ends with a row for every coordinate; every state on the way is safe and no row is ever rewritten; whoever ran has the verdict it reported, or an error if it raised, and exactly its dependencies without a pass or native gap as failed; every new row has its coordinate's digest and only the lists of its verdict; at most two run together, with neither a provider nor an exclusive resource in common; for every clock the readings decide exactly who was started, exhausted or blocked, and what each blocked row names; with no deadline in the way exactly the missing and the waiting are blocked and every other unretained coordinate is started, once |
| LiveMatrix.RetainedExactly | examples/v2_live_matrix.py:455-458 | an earlier row is credited if and only if runner, files and content are unchanged over its whole upstream cone |
| LiveMatrix.AcceptedGraphNeverBlocks | examples/v2_live_matrix.py:269-335 | in a validated acyclic graph nothing is missing and nothing waits for itself |
| LiveMatrix.Execute | examples/v2_live_matrix.py:451-471 | success exactly for well-formed lists without a circle and reviewed budgets; one row per coordinate, all on current digests; an earlier row stays and its coordinate is not run again exactly on an unchanged digest; whoever ran has the verdict it reported and its failed dependencies; what runs together shares neither a provider nor a declared resource; the matrix passed exactly if every check has a row and every row is a pass or a native gap; for every clock an unretained coordinate ran unless a late check or a late first attempt ended it; undelayed everything unretained runs |
| Coverage.NeighboursDecide | harness_watcher_implementation/attention.py:979-987 | on sorted intervals the adjacent test decides whether any two overlap |
| Coverage.GapAbove | harness_watcher_implementation/attention.py:988-1004 | where no interval continues the chain, some instant after the cursor is uncovered |
| Coverage.ApartSort | harness_watcher_implementation/attention.py:979-981 | sorting keeps whether the intervals overlap pairwise |
| Sorting.SortIsStable | harness_watcher_implementation/attention.py:979-981 | sorting is a permutation and keeps the order of elements with one key |
| Coverage.Chain | harness_watcher_implementation/attention.py:988-1003 | the greedy walk succeeds exactly if the union covers every instant of the window, and is busy exactly if some busy interval ends in the window or behind it while no interval before it reaches the end |
| Coverage.CausalIntervalCause | harness_watcher_implementation/attention.py:952-1004 | a cause is returned if and only if the intervals of some manager, the endpoint's own if one is named, are pairwise apart and cover every instant of the closed window, and it is the first such manager's; busy exactly if that manager has a busy interval touching the window that begins before its end, and for a single instant exactly if the first of its intervals there, by start, end and place, is busy |
| Coverage.FirstOfManagers | harness_watcher_implementation/attention.py:963-978 | going through the groups in the order of the dictionary finds the manager whose first interval comes first in the list |
| Coverage.PlaceOf | harness_watcher_implementation/attention.py:979-981 | an interval of the sorted group is the first of that manager's intervals with its start and end |
| Coverage.GapRefutes | harness_watcher_implementation/attention.py:1204-1291 | a scan that starts behind the cursor leaves an instant that no later scan can cover |
| Coverage.BareInstant | harness_watcher_implementation/attention.py:1204-1291 | an instant beyond every earlier end and before the next start is scanned by no later scan either |
| Coverage.CompleteDeliveryCoverage | harness_watcher_implementation/attention.py:1204-1291 | True if and only if some prefix of the sorted scans covers every instant from observation to deadline, all of one process, output root and source generation, numbered from the first on, each naming the one before it, complete, ordered in time, and drained by the watcher's own cursor |
| Coverage.ChainedIsOneRun | harness_watcher_implementation/attention.py:1227-1282 | comparing neighbours decides whether all scans belong to one run of consecutive numbers |
| Coverage.ScansInOrder | harness_watcher_implementation/attention.py:1210-1213 | the scans are rearranged by begin, or by observation without one, and keep their order within one moment |
| Ingest.SpansSplit | harness_watcher_implementation/attention.py:2607-2611 | cutting a stream behind a line break and reading the pieces finds the same lines at the same places |
| Ingest.SpansAreExact | harness_watcher_implementation/attention.py:2607-2611 | every span holds exactly its line and the break that ends it |
| Ingest.SpansAreAll | harness_watcher_implementation/attention.py:2607-2611 | line follows line from the beginning on, and no break comes behind the last one |
| Ingest.LineSpans | harness_watcher_implementation/attention.py:2607-2611 | the loop finds all lines of the data, in order |
| Ingest.MisreadExactly | harness_watcher_implementation/attention.py:2368-2412 | what a poll delivers are lines of the file if and only if the file still holds the carried bytes where they were read, at the start of a line; otherwise the first line delivered is none of its lines |
| Ingest.RegrowthIsMisread | harness_watcher_implementation/attention.py:2368-2412 | a file truncated and regrown with its identity yields a line it never had |
| Ingest.ReadChunk | harness_watcher_implementation/attention.py:2389-2412 | the state moves a chunk on, or to the end of the file if that is nearer, in its generation, or from the start of a new one if the file is another one or has become shorter; that yields exactly the complete lines from the carried one on, lines of the file exactly if it continues what is carried, and a carry with partial_start + length = offset and no break in it; the remainder is dropped exactly if more than sixteen chunks follow the last break |
| Ingest.ReadThrough | harness_watcher_implementation/attention.py:2362-2412 | chunk independence: however the file grows between polls, the polls deliver exactly the complete lines of the bytes read so far, and enough polls read everything |
| Ingest.DedupNeverFails | harness_watcher_implementation/attention.py:2303-2318 | a timeline with one record per id is always accepted and indexed exactly |
| Ingest.DedupExactly | harness_watcher_implementation/attention.py:2303-2318 | any timeline is accepted if and only if records with one id have one digest, and then indexed exactly |
| Ingest.IndexGrows | harness_watcher_implementation/attention.py:2422-2436 | adding an unknown record keeps ids unique and the index exact |
| Ingest.GatherLine | harness_watcher_implementation/attention.py:2413-2468 | a line is blank, recorded once under its id, or reported; reported as malformed only if it does not parse and as colliding only if its id is recorded with other bytes; a record names the line it came from |
| Ingest.TracksAdvance | harness_watcher_implementation/attention.py:2469-2495 | advancing one source by a chunk whose lines are accounted for keeps everything behind its cursor accounted for, across rotations, or a dropped record reported |
| Ingest.Watcher.PollSource | harness_watcher_implementation/attention.py:2362-2495 | one source advances by exactly one chunk of its stream; each new record was read from a line of the stream, each new error is about such a line, or about a remainder over sixteen chunks, which is reported exactly then |
| Ingest.Watcher.Poll | harness_watcher_implementation/attention.py:2321-2508 | whatever the files are now, a poll dying between any two durable writes leaves a timeline with unique ids that only grew by records of their streams, errors that are all genuine, and a cursor that moved, a chunk a source at least, only if it did not die |
| Ingest.Rounds | harness_watcher_implementation/attention.py:2321-2508 | over any number of polls and crashes, on files that do whatever they like: one record per id, the first observation kept, history never rejected; each poll reads on in the files as spliced behind its cursor; every record comes from them and every error is genuine; every complete line behind a cursor is blank, recorded or reported unless an over-long line was dropped, which is reported; files that only grow or are replaced, with lines that fit, are read as they are, nothing is dropped, and enough undisturbed polls account for every complete line of a file |
| Ingest.GenerationsTell | harness_watcher_implementation/attention.py:2373-2388 | over every run the generations of a source only rise, and within one generation the bytes read only grow: a generation and a span name the same bytes for ever |
| Ingest.RoundReads | harness_watcher_implementation/attention.py:2373-2412 | every poll of every run is about to leave each of its sources a chunk further in its generation, or a chunk into a new one exactly if the file is another one or has become shorter, or at the end of the file |
| Ingest.ReachedStep | harness_watcher_implementation/attention.py:2389-2412 | an undisturbed poll reads a chunk more of a file, until all that it held is read |
| Leases.LeaseStore.Acquire | orchestrator_harness/leases.py:67-109 | all declared leases or, up to files that could not be unlinked, none; busy exactly if one is held, and otherwise acquired, failed or died exactly as the failing write and the death make it; a death anywhere inside leaves only some of the caller's own |
| Leases.LeaseStore.Release | orchestrator_harness/leases.py:112-124 | exactly the leases of this lane and run go; a death anywhere inside leaves all others in place |
| Controller.LaneController.StartAttempt | orchestrator_harness/controller.py:749-775 | an attempt is logged with the session it resumes; without a provider the leases go, with unproven cleanup they stay |
| Controller.LaneController.FinishAttempt | orchestrator_harness/controller.py:874-1028 | unproven cleanup keeps leases and boundary; otherwise release or, at most five times and only with a session, a correction that keeps the leases |
| Controller.LaneController.FailAttempt | orchestrator_harness/controller.py:762-852 | leases go only with proof of cleanup |
| Controller.LaneController.Take | orchestrator_harness/controller.py:710-1028 | an enabled move is made, with its exact effect, and no other changes anything; a boundary comes to life only by a spawn and is given up only on proof; while it is live, and across corrections, the leases are held |
| Controller.OthersKeepLeases | orchestrator_harness/leases.py:112-124 | whatever another run does to the lease directory leaves this run's leases alone |
| Controller.LiveBoundariesExclude | orchestrator_harness/controller.py:710-1028 | two runs that share a resource never have live boundaries together |
| Controller.Interleave | orchestrator_harness/controller.py:710-1028 | over every interleaving of any number of controllers, dying between or inside acquisition and release: every turn is taken with its exact effect on what the turns before it left, and nothing else happens; mutual exclusion, at most six attempts a run, every later attempt resumes its predecessor's session |
| ReviewPair.PairIsValidExactly | orchestrator_harness/review.py:51-96 | a published pair is a valid chain exactly if no identifying field is empty |
| ReviewPair.ChainIsLink | orchestrator_harness/review.py:51-96 | a pair is accepted exactly if both hashes are those of the bodies, the acceptance names the review, both tell one source of this lane and run with no empty field, and approval, outcome and name are in range |
| ReviewPair.RecordFolder.WritePair | orchestrator_harness/review.py:191-310 | no existing record is overwritten; an interrupted call leaves exactly what it had written and is completed by an identical retry with the same two records; any other retry conflicts |
| ReviewPair.RecordFolder.RecoverBroken | orchestrator_harness/monitor.py:239-273 | a valid pair is left alone; a broken one is removed entirely, or in order up to the death; True exactly if a broken pair was there and both removals were reached |
| ReviewPair.CallsKeepPair | orchestrator_harness/review.py:248-310 | a complete valid pair is stable under every sequence of retries and repairs, dying anywhere |
| ReviewPair.RetriesConverge | orchestrator_harness/review.py:248-310 | retries and repairs dying anywhere leave only a prefix of one publication, which a last retry completes to a valid pair |
| ReviewPair.UncommittedPairIsNotReplayable | orchestrator_harness/review.py:286-310 | with an empty commit the first call publishes and every retry conflicts |
| ReviewPair.InterruptedThenRetried | orchestrator_harness/review.py:286-310 | after a crash between the writes, with the review alone on the disk, the retry yields the uninterrupted pair if and only if the source is complete |
| ManagerQueue.AcknowledgeExactly | orchestrator_harness/manager_queue.py:171-189 | the transition keeps the history a lawful prefix ending in the state if and only if the event is pending |
| ManagerQueue.CloseExactly | orchestrator_harness/manager_queue.py:192-226 | likewise for closing, if and only if the event is acknowledged |
| ManagerQueue.WatchExactly | orchestrator_harness/manager_queue.py:264-301 | a watch receipt may be added if and only if its session and binding have none on this queue |
| ManagerQueue.ClosedStaysClosed | orchestrator_harness/manager_queue.py:192-226 | a closed event keeps its outcome and history for ever |
| ManagerQueue.ManagerQueue.Promote | orchestrator_harness/manager_queue.py:108-168 | the event that has the key, or one new pending event; each error exactly in its case; queue laws kept |
| ManagerQueue.ManagerQueue.Acknowledge | orchestrator_harness/manager_queue.py:171-189 | the exact new queue or the exact error; queue laws kept |
| ManagerQueue.ManagerQueue.Close | orchestrator_harness/manager_queue.py:192-226 | the exact new queue or the exact error, in the order of the checks; queue laws kept |
| ManagerQueue.ManagerQueue.AppendDeliveryHistory | orchestrator_harness/manager_queue.py:229-261 | one hook receipt, and nothing for an unknown event; queue laws kept |
| ManagerQueue.ManagerQueue.AppendWatchDelivery | orchestrator_harness/manager_queue.py:264-301 | delivered exactly if the event is open and this session and binding were not told before; queue laws kept |
| ManagerQueue.NoticeKeysCollideExactly | orchestrator_harness/monitor.py:560 | signals of two lanes and runs can collide if and only if one lane-and-run text is a prefix of the other |
| ManagerQueue.NoticeKeyExactly | orchestrator_harness/monitor.py:560 | without colons in lane and run, equal keys mean equal lane, run and signal |
| ManagerQueue.NoticeKeysCollide | orchestrator_harness/monitor.py:560 | with a colon in a lane's name keys of different signals collide |
| ManagerQueue.StemExactly | orchestrator_harness/monitor.py:542 | the stem of a file name ends before its last dot, unless that is the first or the last character |
| ManagerQueue.Outbox.Drain | orchestrator_harness/monitor.py:511-588 | the only event it can add says what the notice says, under the notice's own signal, its id, or the stem of its name; what becomes of the file, decided by what was there before; a notice is archived only once its event exists; the drained file waits or is archived unchanged; an archived file goes exactly if another promotable one of its name is drained without a fault, and its event stays; a replay after a death or a failed archive adds no event; unreadable or refused files are retained and reported |
| ManagerQueue.ArchiveOverwrites | orchestrator_harness/monitor.py:573-588 | two different notices posted one after the other under one name: only the second is in the archive, and both events are in the queue |
| ManagerQueue.ConsumeOutbox | orchestrator_harness/monitor.py:493-589 | after a pass every promotable notice has its event and is archived where archiving works; all else waits unchanged, each retained file with the one diagnostic that says why |
| ManagerQueue.Operate | orchestrator_harness/manager_queue.py:94-301 | over any interleaving of all operations, postings and deaths: unique ids and keys, lawful histories, one watch receipt per session and binding, events only added, every archived notice recorded |
| CommandSegments.LayoutIsWhole | orchestrator_harness/codex_bounded_policy.py:185-243 | raw segments and separators in turn concatenate to the command |
| CommandSegments.EverySeparatorIsOne | orchestrator_harness/codex_bounded_policy.py:224-230 | every separator of a command is one of the six |
| CommandSegments.OutsideExactly | orchestrator_harness/codex_bounded_policy.py:198-223 | the scanner is outside quotes and escapes at a character if and only if whole lexical units (characters, escape pairs, closed strings) precede it |
| CommandSegments.SeparatorsStandOutside | orchestrator_harness/codex_bounded_policy.py:224-236 | every separator character stands behind whole lexical units |
| CommandSegments.StartsExactly | orchestrator_harness/codex_bounded_policy.py:224-236 | a separator begins at a character if and only if whole lexical units precede it and it is a semicolon, a bar, a carriage return, a line feed, or the first of two ampersands |
| CommandSegments.DividedExactly | orchestrator_harness/codex_bounded_policy.py:185-243 | the layout is the only way to divide the command at exactly these places into raw segments and separators |
| CommandSegments.CommandSegments | orchestrator_harness/codex_bounded_policy.py:185-243 | the index loop ends and returns the stripped nonempty segments of the only division of the command at its separators |
| CommandSegments.SplitAgain | orchestrator_harness/codex_bounded_policy.py:185-243 | splitting a returned segment again yields exactly that segment |
| CommandSegments.SplitAfterClosed | orchestrator_harness/codex_bounded_policy.py:185-243 | a closed segment, a separator and any text split into that segment and the text's own segments |
| CommandSegments.ClosedExactly | orchestrator_harness/codex_bounded_policy.py:185-243 | what can stand in front of a separator: a stripped text in which nothing separates and which consists of whole lexical units even with a space behind it |
| Strings.BlankExactly | orchestrator_harness/codex_bounded_policy.py:234-241 | white space is exactly the code points that Python strips |
| CommandSegments.RejoinedSplitsBack | orchestrator_harness/codex_bounded_policy.py:185-243 | segments joined by " ; " split back to the same segments |
| CommandSegments.SplitsExactly | orchestrator_harness/codex_bounded_policy.py:185-243 | exactly the lists of stripped nonempty texts in which no character separates, each but the last made of whole lexical units with a space behind it, are the split of some command |
| ReleaseChecks.ReadCredits | orchestrator_harness/release_checks.py:1498-1515 | the loop's table holds a check exactly if it was credited an odd number of times, and marks as ambiguous every check credited more than once, at any multiplicity |
| ReleaseChecks.SelectChecks | orchestrator_harness/release_checks.py:1456-1602 | check by check: a credit is kept exactly if it is the only one, no disposition contradicts it, and it agrees with the check and the world field by field; what the intent asks for is selected exactly if it has no such credit, with its current fingerprint and the reason that the number of its credits and its first disposition give; selected in registry order, and exactly the rejected and invalidated names |
| ReleaseChecks.SelectionExactly | orchestrator_harness/release_checks.py:1550-1590 | a check is selected exactly if wanted, not excluded and without exact credit, and its credit is preserved exactly if exact: the only one, uncontradicted, and equal to the current state in fingerprint, tier, command, contract, root, git directory, branch, an ancestor tip and every invoked runner component, for a check that needs nothing external and consumes no change |
| ReleaseChecks.KeptExactly | orchestrator_harness/release_checks.py:1542-1590 | the predicate of the selector holds exactly for such credit |
| ReleaseChecks.RunnerKeysExactly | orchestrator_harness/release_checks.py:935-945 | a command depends on python and on exactly those of the two tools that it runs as a module |
| ReleaseChecks.ReasonExactly | orchestrator_harness/release_checks.py:1550-1590 | the reason of a selection, from the parity of the check's credits and its first disposition |
| ReleaseChecks.SelectionPartitions | orchestrator_harness/release_checks.py:1437-1453 | selected and preserved never meet; for full intent without exclusions they partition the registry |
| ReleaseChecks.AmbiguousIsNeverPreserved | orchestrator_harness/release_checks.py:1502-1539 | a check credited other than once, or validly dispositioned, is never preserved |
| ReleaseChecks.SelectionInOrder | orchestrator_harness/release_checks.py:1549-1590 | selected checks keep the registry's order |
| ReleaseChecks.CheckpointRecord | orchestrator_harness/release_checks.py:1056-1112 | a record if and only if all entries are well-formed, ids distinct, no id both credited and dispositioned, and the first unresolved unit recorded |
| ReleaseChecks.MergeIsValidExactly | orchestrator_harness/release_checks.py:1148-1320 | merging a well-formed run into a valid checkpoint is valid if and only if the first unresolved unit's id is stripped already, or its stripped form is the id of another unit that did not pass or of a disposition left standing |
| ReleaseChecks.PaddedIdIsRefused | orchestrator_harness/release_checks.py:1096-1103 | a well-formed run of one unit with a padded id that ends unresolved is refused |
| ReleaseChecks.MergeTrimmedRun | orchestrator_harness/release_checks.py:1148-1320 | with stripped unit ids every well-formed run merges into a valid checkpoint |
| ReleaseChecks.RunAndMerge | orchestrator_harness/release_checks.py:1148-1602 | selecting, running and merging, over a registry with stripped ids, always ends in a valid checkpoint |
| ReleaseChecks.UncertaintyDropsCredit | orchestrator_harness/release_checks.py:1275-1283 | after an unresolved or skipped unit no preserved PASS is carried: every credit is of a unit that passed in this run |
| ReleaseChecks.MergeCheckpointResults | orchestrator_harness/release_checks.py:1148-1320 | the merge succeeds exactly on a run whose units, results and preserved credits are as demanded, each condition written out, and whose merged records are valid; entry by entry the record holds the credits of what passed, with the preserved ones unless a unit ended unresolved or skipped, the dispositions of what did not and of what was left standing, and the first unresolved unit |
| ReleaseChecks.PresentableExactly | orchestrator_harness/release_checks.py:1166-1273 | the checks made result by result accept exactly the runs that are as demanded |
| ReleaseChecks.MergedExactly | orchestrator_harness/release_checks.py:1275-1320 | what the merged record holds, entry by entry |
| ReleaseChecks.DecisionIsWellFormed | orchestrator_harness/release_checks.py:1549-1602 | every decision of the selector is well-formed for the merge |
| ReleaseChecks.ResumeExactly | orchestrator_harness/release_checks.py:1148-1602 | after a run and its merge, with nothing changed, the next selection keeps exactly the units that passed and need nothing external and, unless the run ended in uncertainty, those kept before |

## Left out

- Windows job objects, `kill` refused by the operating system, and process creation: the boundary is modelled on its snapshot path, and a signal to a checked PID is delivered.
- ProcessBoundary.Boundary.Cleanup: does not state how long it waits between rounds; each wait is one change of the process table.
- ProcessBoundary.Boundary.Observe: creation instants are compared through an arbitrary parsing function; the text formats are not modelled.
- CacheTransaction.RuntimeRoot.Install: the transaction id is an input; read errors are raised only at the byte comparisons and validations that precede a commit; the stage's files are deleted in any order; retries of a rename are one step.
- SHA-256 and the canonical encodings are injective constructors; the temporary sibling of an atomic JSON write is not on the disk.
- JSON parsing, schema checks and the validation of single records; a malformed record is one that its parser or shape flag rejects.
- Coverage.CausalIntervalCause: takes the paired intervals as given; how they are paired from the records is not modelled.
- Ingest.Rounds: carriage returns do not end lines; an append to the timeline or to the error log is one step, so torn appends and corrupted timelines do not occur.
- Ingest.Watcher.Poll: the findings and the report computed after the cursor is written, with the whole event classification, are not modelled.
- Scheduler.ScheduleCoordinates: the sorted order of keys is any given order that lists them; what a coordinate does while it runs is an arbitrary report.
- Controller.Interleave: spawning and recording the boundary are one step; status files, prompts, acceptance polling and the forced release of leases are not modelled.
- ReviewPair.RecordFolder.RecoverBroken: does not model the lane record that the repair then updates.
- ManagerQueue.ManagerQueue.AppendDeliveryHistory: the receipt's source is always the hook and its queue this queue, as in its one caller.
- ManagerQueue.Outbox.Drain: file names are compared exactly; the activity log is not modelled.
- CommandSegments.CommandSegments: which invocations the bounded policy then covers is not modelled.
- ReleaseChecks.SelectChecks: the sorted name tuples are sets; an id that is no string is a missing one; matching of changed paths is the given set of consumers; the release intent's eligibility of every tier is as in the code.
- Mutation guards, the command line, Git and bootstrap work, configuration and provider adapters.
