# A verified model of the goal supervisor, the plugin host and the workspace inventory

The project models the parts of the repository whose correctness depends on interleaving, on a
format, or on an algorithm, and proves what they promise.

* **Locks and readiness** (`LockFiles`, `DaemonLock`, `DaemonExclusion`, `DaemonRecovery`,
  `DaemonReadiness`, `DaemonHandle`, `DaemonFailures`, `LifecycleLock`, `LifecycleRecovery`,
  `LifecycleHandle`). Any number of processes run acquisitions that take one file-system call at a
  time on a lock file, a recovery guard and a readiness marker, and may crash between two calls; any
  call may fail. A run is a list of steps; a step that is not possible changes nothing, so every
  theorem about all lists of steps is about all runs.
* **Goal plans** (`MarkdownLines`, `GoalPlanInfo`, `GoalPlanFence`, `GoalPlanErrors`,
  `GoalPlanWrap`, `GoalPlanJson*`, `PlanGraph`, `PlanIssues`, `PlanValidator`, `CanonicalForm`, `CanonicalOrder`).
  The fence scanner, the JSON recogniser, the plan validator and the canonical form are each proved
  equal to an independent description of what they decide.
* **Archives** (`Ustar`, `UstarRoundTrip`, `UstarArchive`, `UstarReader`, `UstarLayout`). The
  exporter that writes ustar archives and the plugin store's reader, with the reader undoing the
  writer, and what the reader makes of archives from other writers. The format is the "ustar
  Interchange Format" of the pax utility in IEEE Std 1003.1-2017.
* **Asynchronous coordination** (`SerialQueue`, `PluginQueues`, `AuditLog`, `AuditProgress`,
  `WorkerPool`, `OutboxDispatch`, `OutboxOutcome`, `Cancellations`, `SessionDispatch`,
  `SessionUniqueness`, `SessionProgress`, `AttemptVerification`, `GoalFinalization`, `Base64`,
  `RepositoryTrust`, `RepositoryOperations`). Between two awaits JavaScript code runs alone;
  such a segment is one step, and steps of different calls interleave in any way.
* **Globs, inventory and scores** (`RegularExpression`, `GlobExpression`, `SourceInventory`,
  `CosineSimilarity`).

## What the code does not promise

Four natural statements are false of the code. Each is stated with a counterexample and with the
exact condition under which it holds.

* A glob's `**` does not cross line terminators, because the expression uses `.` without the `s`
  flag. `GlobExpression.PatternAgreesExactly` and `GlobExpression.PathAgreesExactly` say for which
  patterns and for which paths the expression and the glob agree.
* `trust` in the repository store compares a supplied root when the stored root is the empty text,
  but keeps the empty one (`RepositoryTrust.EmptyRootBreaksTrust`). `RepositoryTrust.TrustKeptExactlyWhen`
  names the one call; the plugin manager never makes it.
* A rejected `record` of the audit store may have its event in the log, because setting the file's
  mode comes after the rename (`AuditLog.RejectedMayBeLogged`, `AuditLog.LoggedExactlyWhenRenamed`).
* One session and one prompt per key is a promise of a single adapter instance: any two instances
  can create, prompt and return two sessions for any key (`SessionUniqueness.TwoAdaptersDuplicate`).
  `SessionUniqueness.UniqueExactlyWhen` says that the promise holds in every run exactly when the
  calls for the key go through at most one instance.

A guard left behind by a crash is never removed (`DaemonExclusion.AbandonedGuardStays`,
`LifecycleLock.AbandonedGuardStays`), as the code's comments intend: recovery fails closed.

## Model

| member | source | states |
|---|---|---|
| DaemonExclusion.MutualExclusion | packages/opencode-goal-supervisor/src/daemon.ts:377-509 | in every state of every run at most one live call holds the workspace lock, and the lock file then carries its token |
| DaemonExclusion.OnlyRightfulRemoval | packages/opencode-goal-supervisor/src/daemon.ts:185-198 | a record is removed only by the call that drew its token, or by the guard holder once the owner's process is dead; no step ever replaces a record in place |
| DaemonExclusion.AbandonedGuardStays | packages/opencode-goal-supervisor/src/daemon.ts:366-509 | a guard whose creator crashed is never removed by any later step |
| DaemonRecovery.StaleLockIsRecovered | packages/opencode-goal-supervisor/src/daemon.ts:377-509 | from any reachable state without a guard, one undisturbed acquisition of a free lock, or of a lock whose owner is dead, ends up holding it in three or in twelve file-system calls, with the guard gone and the old marker removed |
| DaemonRecovery.HoldsExactlyWhen | packages/opencode-goal-supervisor/src/daemon.ts:377-509 | an undisturbed acquisition, whichever of its calls fail, can end up holding the lock exactly when there is no guard and the lock is free or its owner dead |
| DaemonReadiness.MarkedByOwner | packages/opencode-goal-supervisor/src/daemon.ts:279-332 | a token counts as marked only after its own live call renamed the marker into place while its record was in the lock |
| DaemonReadiness.MatchingMarkerMeansReady | packages/opencode-goal-supervisor/src/daemon.ts:225-363 | when lock and marker carry one token, its call has completed the acquisition and executed `markReady` |
| DaemonReadiness.NoForeignMarker | packages/opencode-goal-supervisor/src/daemon.ts:258-278 | once acquired and until released, the marker is absent or the owner's own |
| DaemonReadiness.OwnMarkerIsSafe | packages/opencode-goal-supervisor/src/daemon.ts:258-278 | no step of another call, crash or inspection changes a live owner's marker |
| DaemonReadiness.ReportedReadyIsReady | packages/opencode-goal-supervisor/src/systemd.ts:556-609 | the inspector reports a token ready only if that token's owner marked it |
| DaemonLock.Invariant | packages/opencode-goal-supervisor/src/daemon.ts:225-509 | the inductive invariant of lock, guard, marker and pending removals holds in every run |
| DaemonHandle.MarkReadyExactly | packages/opencode-goal-supervisor/src/daemon.ts:279-332 | in any reachable state an undisturbed `markReady`, any of whose three file-system calls may fail, succeeds exactly when none does; the marker is renamed into place exactly when the first two do not fail, and nothing else changes |
| DaemonHandle.InspectionExactly | packages/opencode-goal-supervisor/src/systemd.ts:556-609 | an undisturbed inspection of any state reports nothing under a guard or without a lock, and else the owner, whether it runs, and whether the marker is that owner's |
| DaemonHandle.MarkedIsReported | packages/opencode-goal-supervisor/src/daemon.ts:279-332 | after a `markReady` in which nothing fails the inspector reports the owner as running and ready |
| DaemonHandle.ReadyMeansMarked | packages/opencode-goal-supervisor/src/daemon.ts:279-361 | as long as a live call is ready and not being released, the marker is its own |
| DaemonHandle.NeverWithdraws | packages/opencode-goal-supervisor/src/daemon.ts:258-278 | within the protocol the recheck after the rename always finds the call's own record, so that no marker is ever withdrawn |
| DaemonHandle.ReleaseRemoves | packages/opencode-goal-supervisor/src/daemon.ts:333-361 | an undisturbed `release` removes the marker and the lock, the lock even if the marker cannot be unlinked, and nothing else |
| DaemonHandle.ReleasedIsFree | packages/opencode-goal-supervisor/src/daemon.ts:333-509 | the next undisturbed acquisition then succeeds, in three file-system calls |
| DaemonHandle.FailedClearGivesBack | packages/opencode-goal-supervisor/src/daemon.ts:239-257 | when a predecessor's marker cannot be unlinked the published lock is given back, and the guard dropped if it was taken |
| DaemonHandle.RefusedLeavesNoTrace | packages/opencode-goal-supervisor/src/daemon.ts:377-509 | a call that meets a live owner fails, with lock, guard and marker as they were |
| DaemonHandle.VanishedLockIsTaken | packages/opencode-goal-supervisor/src/daemon.ts:416-509 | a call that finds the lock gone under the guard takes it |
| DaemonHandle.OvertakenTriesAgain | packages/opencode-goal-supervisor/src/daemon.ts:377-509 | a call that is overtaken under the guard drops it and tries again under a new token, or fails after its third attempt |
| DaemonHandle.AttemptsAreBounded | packages/opencode-goal-supervisor/src/daemon.ts:377-509 | no call makes more than three attempts |
| DaemonFailures.HeldUntilReleased | packages/opencode-goal-supervisor/src/daemon.ts:225-509 | an acquired lock is kept, whatever other calls, crashes and inspections do, until it is released or its process dies |
| DaemonFailures.FailureUnderGuard | packages/opencode-goal-supervisor/src/daemon.ts:416-509 | a file-system call that fails under the guard makes the acquisition fail with the guard dropped and nothing else touched |
| DaemonFailures.StuckGuardStays | packages/opencode-goal-supervisor/src/daemon.ts:487-509 | a guard that cannot be unlinked stays behind, and an acquisition that has succeeded still holds the lock |
| LifecycleLock.MutualExclusion | packages/opencode-goal-supervisor/src/tui-daemon.ts:370-543 | at most one live call holds the lifecycle lease, and the lease file then carries its token |
| LifecycleLock.OnlyRightfulRemoval | packages/opencode-goal-supervisor/src/tui-daemon.ts:330-346 | a lease is removed only by its owner, or by the guard holder once the owner's process is dead |
| LifecycleLock.RecovererOnlyRemoves | packages/opencode-goal-supervisor/src/tui-daemon.ts:492-532 | a call acting under the guard never publishes a lease: it leaves the cell unchanged or empty |
| LifecycleLock.AbandonedGuardStays | packages/opencode-goal-supervisor/src/tui-daemon.ts:398-532 | a guard whose creator crashed is never removed by any later step |
| LifecycleRecovery.StaleLeaseIsRecovered | packages/opencode-goal-supervisor/src/tui-daemon.ts:370-543 | from any reachable state without a guard, an undisturbed call takes a free lease in two file-system calls, and in fifteen removes the lease of a dead owner under the guard, drops the guard and takes the lease under a new token |
| LifecycleRecovery.TakesTheLeaseExactlyWhen | packages/opencode-goal-supervisor/src/tui-daemon.ts:370-543 | an undisturbed call, whichever of its file-system calls fail, can get the lease exactly when there is no guard and the lease is free or its owner dead |
| LifecycleHandle.ReleaseRemovesLease | packages/opencode-goal-supervisor/src/tui-daemon.ts:330-346 | an undisturbed release removes the lease and touches nothing else |
| LifecycleHandle.ReleasedLeaseIsFree | packages/opencode-goal-supervisor/src/tui-daemon.ts:370-543 | the next undisturbed acquisition then succeeds, in two file-system calls |
| LifecycleHandle.HeldUntilReleased | packages/opencode-goal-supervisor/src/tui-daemon.ts:370-543 | a lease is kept, whatever other calls do, until it is released or its process dies |
| LifecycleHandle.LateCallLeavesNoTrace | packages/opencode-goal-supervisor/src/tui-daemon.ts:370-543 | a call that meets a live owner after its deadline fails, with lease and guard as they were |
| LifecycleHandle.WaitingExactly | packages/opencode-goal-supervisor/src/tui-daemon.ts:398-491 | a call that meets a guard, a vanished lease or a live owner fails exactly when its deadline has passed, and else begins again under a new token |
| LifecycleHandle.ChangedLeaseIsLeftAlone | packages/opencode-goal-supervisor/src/tui-daemon.ts:492-532 | a lease that has changed hands before the guard was taken stays as it is; the guard is dropped and the call begins again |
| LifecycleHandle.FailureUnderGuard | packages/opencode-goal-supervisor/src/tui-daemon.ts:492-532 | a file-system call that fails under the guard makes the call fail with the guard dropped; an identity that cannot be read makes it wait |
| GoalPlanJsonCompleteness.AcceptsExactlyTheLanguage | packages/opencode-goal-supervisor/src/goal-plan.ts:112-260 | the recogniser accepts a text exactly when it derives from the JSON grammar (sections 2 to 7 of RFC 8259), nests at most 64 levels below the root, and no object repeats a name after unescaping |
| GoalPlanJsonSoundness.Sound | packages/opencode-goal-supervisor/src/goal-plan.ts:112-260 | every accepted text is in that language |
| GoalPlanJsonCompleteness.Complete | packages/opencode-goal-supervisor/src/goal-plan.ts:112-260 | every text of that language is accepted |
| GoalPlanJsonRecogniser.Recognise | packages/opencode-goal-supervisor/src/goal-plan.ts:112-260 | the imperative recogniser returns normally on exactly the texts of the language |
| GoalPlanJsonRecogniser.Recogniser.ParseValue | packages/opencode-goal-supervisor/src/goal-plan.ts:168-250 | the moving index ends where the value read from the unread text ends, or the call fails with it |
| GoalPlanJsonRecogniser.Recogniser.ParseObject | packages/opencode-goal-supervisor/src/goal-plan.ts:178-211 | the member loop with its set of seen names accepts what the object rule accepts |
| GoalPlanJsonRecogniser.Recogniser.ParseArray | packages/opencode-goal-supervisor/src/goal-plan.ts:212-232 | the element loop accepts what the array rule accepts |
| GoalPlanJsonRecogniser.Recogniser.ParseString | packages/opencode-goal-supervisor/src/goal-plan.ts:125-167 | the string scanner stops at the closing quote of a well-formed string and returns its unescaped text |
| GoalPlanJsonSoundness.StringSound | packages/opencode-goal-supervisor/src/goal-plan.ts:125-167 | what the string scanner accepts is a derived string, and the compared name is its meaning |
| GoalPlanJsonCompleteness.NumberComplete | packages/opencode-goal-supervisor/src/goal-plan.ts:241-249 | the longest match of the number expression is the whole number the grammar derives |
| GoalPlanJsonCharacters.EscapesExactly | packages/opencode-goal-supervisor/src/goal-plan.ts:131-158 | the single-letter escapes are those of the JSON grammar |
| GoalPlanJsonCharacters.HexMeansNumber | packages/opencode-goal-supervisor/src/goal-plan.ts:131-158 | a hexadecimal escape stands for the code unit whose digits it has, in either case |
| MarkdownLines.SplitsExactly | packages/opencode-goal-supervisor/src/goal-plan.ts:56 | the lines of a text are the one way to read it as lines of which CR LF, LF or CR ends each but the last |
| MarkdownLines.OpensExactly | packages/opencode-goal-supervisor/src/goal-plan.ts:32-44 | a line opens a fence exactly when it has at most three spaces, a run of at least three markers and a one-line tail, without a backtick after a backtick run; the marker, the length and what the info says are read off that shape |
| MarkdownLines.ClosesExactly | packages/opencode-goal-supervisor/src/goal-plan.ts:46-53 | a line can close with a run exactly when it is at most three spaces, that run and blanks |
| GoalPlanInfo.SubjectExactly | packages/opencode-goal-supervisor/src/goal-plan.ts:84-91 | an info string is the plan's exactly when it is "goal-plan", and not exact exactly when it is another in which that name stands as a word |
| GoalPlanInfo.MalformedExactly | packages/opencode-goal-supervisor/src/goal-plan.ts:32-43 | a fence is malformed exactly when it is made of backticks, has one in its info, and names the goal plan there as a word |
| MarkdownLines.TrimStripsTheEnds | packages/opencode-goal-supervisor/src/goal-plan.ts:36 | the info is the tail without the white space at its ends |
| GoalPlanFence.AcceptsExactly | packages/opencode-goal-supervisor/src/goal-plan.ts:55-110 | the scan returns a text exactly when the document is balanced material around one closed goal-plan block with that text inside |
| GoalPlanFence.Extract | packages/opencode-goal-supervisor/src/goal-plan.ts:55-110 | the loop with its open fence, content and result computes the scan, errors included |
| GoalPlanErrors.RefusedExactly | packages/opencode-goal-supervisor/src/goal-plan.ts:55-110 | each error is given exactly for the documents with that defect: complete material, and then the end without a plan, a line that may not stand there, or a fence in which one stands or that is never closed |
| GoalPlanFence.InsideCloses | packages/opencode-goal-supervisor/src/goal-plan.ts:66-81 | a scan that succeeds inside a fence meets a closing line with only interior lines before it |
| GoalPlanFence.RestIsBalanced | packages/opencode-goal-supervisor/src/goal-plan.ts:83-96 | after the plan only balanced material without a second plan is accepted, and it does not change the result |
| GoalPlanWrap.WrapThenExtract | packages/opencode-goal-supervisor/src/goal-plan.ts:55-110 | writing a text into a goal-plan block and extracting it is the identity exactly when the text has no carriage return and none of its lines would close or reopen the block |
| GoalPlanWrap.ExtractedHasNoReturn | packages/opencode-goal-supervisor/src/goal-plan.ts:55-69 | whatever line ends the document uses, the extracted text has line feeds only |
| GoalPlanWrap.JoinUndoesSplit | packages/opencode-goal-supervisor/src/goal-plan.ts:56-69 | joining the lines of a text without carriage returns gives the text back |
| PlanValidator.ValidateAcyclicPlan | packages/opencode-goal-supervisor/src/domain.ts:1158-1287 | an issue of any code but the cycle one occurs exactly when the plan has that very defect; these come first, as often and in the order in which the plan gives rise to them; every reported cycle is a real one, every closed walk of known units has a reported cycle in its component, and no two reported cycles have the same units; the list is empty exactly when the plan has no defect; without a cycle the search leaves every unit once, after all its dependencies |
| PlanValidator.Validator.Validate | packages/opencode-goal-supervisor/src/domain.ts:1158-1287 | the checks and the search, run on a fresh validator, leave those issues and that order in its fields |
| PlanIssues.EveryDefectReported | packages/opencode-goal-supervisor/src/domain.ts:1158-1247 | an issue is in the list of what the plan gives rise to exactly when the plan has that very defect |
| PlanValidator.Validator.Visit | packages/opencode-goal-supervisor/src/domain.ts:1253-1284 | the depth-first search keeps its stack a walk, leaves the unit in `visited`, and accounts for each of its dependencies: visited before it, or on a reported cycle with it |
| PlanValidator.Validator.ReportCycle | packages/opencode-goal-supervisor/src/domain.ts:1262-1274 | afterwards some reported cycle passes through both ends of the back edge, and no two pass through the same units |
| PlanValidator.CycleIsJustified | packages/opencode-goal-supervisor/src/domain.ts:1262-1274 | the part of the stack from the repeated unit on, closed by it, is a cycle without repetition |
| PlanGraph.EveryComponentReported | packages/opencode-goal-supervisor/src/domain.ts:1248-1286 | when every dependency is accounted for, each closed walk shares its component with a reported cycle |
| PlanGraph.OrderedMeansAcyclic | packages/opencode-goal-supervisor/src/domain.ts:1248-1286 | an order that lists every unit after its dependencies excludes every cycle |
| PlanGraph.WalkDescends | packages/opencode-goal-supervisor/src/domain.ts:1248-1286 | along a walk of dependencies the positions in such an order decrease, up to the first dependency on a reported cycle |
| PlanGraph.FirstUnit | packages/opencode-goal-supervisor/src/domain.ts:1164-1187 | the known unit of an id is the first one declared with it |
| CanonicalForm.SameNormalForm | packages/opencode-goal-supervisor/src/tui-protocol.ts:195-206 | two values normalise to one tree exactly when they are equal up to member order and undefined-valued members, at every depth |
| CanonicalForm.Idempotent | packages/opencode-goal-supervisor/src/tui-protocol.ts:195-206 | normalising twice is normalising once |
| CanonicalForm.NormalIsEquiv | packages/opencode-goal-supervisor/src/tui-protocol.ts:195-206 | a normal form has distinct keys and is equal, up to order and undefined members, to what it was made from |
| CanonicalForm.AscendingIsUnique | packages/opencode-goal-supervisor/src/tui-protocol.ts:200-203 | members sorted by key are determined by which members there are |
| CanonicalOrder.NormalIsInOrder | packages/opencode-goal-supervisor/src/tui-protocol.ts:195-206 | the members of a normalised object stand in the one order in which it enumerates: array indices by number, then the other keys code unit by code unit |
| CanonicalOrder.IndexExactly | packages/opencode-goal-supervisor/src/tui-protocol.ts:199-204 | the keys that enumerate first are exactly the decimal numerals of the numbers below 2^32 - 1 |
| UstarRoundTrip.OctalRoundTrip | apps/web-server/src/workspace-intelligence-archive-channel.ts:80-91 | reading octal digits undoes writing them |
| UstarRoundTrip.PaddedRoundTrip | apps/web-server/src/workspace-intelligence-archive-channel.ts:80-91 | so does reading a field padded with zeros to its width |
| UstarRoundTrip.ChecksumAgrees | apps/web-server/src/plugin-artifact-store.ts:410-421 | the checksum the reader computes with its field blanked is the one the writer stored, and it fits its six digits |
| UstarRoundTrip.HeaderRoundTrip | apps/web-server/src/plugin-artifact-store.ts:340-372 | a written header reads back as the name up to its first NUL, a file, and the size, for names of up to exactly 100 bytes |
| UstarRoundTrip.EntriesRoundTrip | apps/web-server/src/plugin-artifact-store.ts:330-382 | a written archive reads back as exactly its entries, in order, ended by the zero blocks |
| UstarRoundTrip.ReadAfterWrite | apps/web-server/src/plugin-artifact-store.ts:330-382 | reading any writable archive gives the map in which names are cut at NUL and later files win |
| UstarRoundTrip.FaithfulExactlyWhen | apps/web-server/src/plugin-artifact-store.ts:330-393 | that map gives every file its contents under its name exactly when names are free of NUL and files of one name agree |
| UstarRoundTrip.RoundTrip | apps/web-server/src/workspace-intelligence-archive-channel.ts:93-143 | reading undoes writing for distinct NUL-free names of at most 100 bytes |
| UstarArchive.WriteHeader | apps/web-server/src/workspace-intelligence-archive-channel.ts:93-119 | the header filled in place is the header of the format, with its own checksum |
| UstarArchive.TarEntry | apps/web-server/src/workspace-intelligence-archive-channel.ts:93-120 | header, contents and padding to whole blocks, or an error exactly when the name is longer than 100 bytes |
| UstarArchive.WriteArchive | apps/web-server/src/workspace-intelligence-archive-channel.ts:122-143 | the archive assembled in place is the entries and two zero blocks, within the size limit, or the first error |
| UstarArchive.ReadPluginArchive | apps/web-server/src/plugin-artifact-store.ts:330-382 | the reader's loop computes the entries, the policy's judgement and the map, every failure included |
| UstarArchive.ReadEntries | apps/web-server/src/plugin-artifact-store.ts:334-372 | the loop over a moving offset reads the same entries as the recursive description, or fails alike |
| UstarArchive.ExportRoundTrip | apps/web-server/src/workspace-intelligence-archive-channel.ts:122-143 | reading back what the exporter wrote gives exactly the given map of prefixed paths to bytes |
| UstarLayout.HeaderFollowsFormat | apps/web-server/src/workspace-intelligence-archive-channel.ts:93-119 | the written header holds, field by field, what the format lays down: name, mode, owner, group, size, time, its own checksum, type, magic, version, and zeros |
| UstarReader.NumberExactly | apps/web-server/src/plugin-artifact-store.ts:394-409 | a field is read as a number exactly when it holds the octal digits of that number, with zeros before them and white space around |
| UstarReader.HeaderOfIsRead | apps/web-server/src/plugin-artifact-store.ts:340-356 | for all names and prefixes without NUL that fit, every type flag and every size of up to eleven octal digits, the block with these fields and its own checksum is read as prefix, slash and name, of the kind the flag names |
| UstarReader.HeaderIsRead | apps/web-server/src/plugin-artifact-store.ts:340-431 | so is every header, whoever wrote it, whose fields hold these values and whose checksum is its own sum |
| UstarReader.RefusedExactly | apps/web-server/src/plugin-artifact-store.ts:394-421 | a block is refused exactly when its checksum field is no number, the checksum is not its own sum, or its size field is no number |
| UstarReader.ArchiveIsRead | apps/web-server/src/plugin-artifact-store.ts:330-382 | any well-formed archive is read as its files under their full paths, the later of two with one path, if the policy accepts its listing and every entry is a directory or a safe file; else it is refused |
| UstarReader.WrongChecksumIsRefused | apps/web-server/src/plugin-artifact-store.ts:410-421 | behind any entries a block whose checksum is not its own sum is refused |
| UstarReader.DataBehindZerosIsRefused | apps/web-server/src/plugin-artifact-store.ts:341-348 | data behind a block of zeros are refused |
| UstarReader.CutOffExactly | apps/web-server/src/plugin-artifact-store.ts:336-362 | an archive cut off within its last entry is refused, unless only the filling of the last block is missing |
| SerialQueue.OneAtATimeInOrder | apps/web-server/src/plugin-manager.ts:335-377 | an operation has begun only when every earlier one of its key has settled |
| SerialQueue.CleanedMeansNoTails | apps/web-server/src/plugin-manager.ts:335-377 | when every call has cleaned up, the map of tails is empty |
| SerialQueue.SomeoneCanGoOn | apps/web-server/src/plugin-manager.ts:335-377 | behind every unsettled operation one of the same key is ready or running |
| PluginQueues.InCallOrder | apps/web-server/src/plugin-manager.ts:335-377 | in every run operations of one repository, and of one plugin, run one at a time in call order, whatever their outcomes |
| PluginQueues.InstallHoldsItsRepository | apps/web-server/src/plugin-manager.ts:774-816 | while an install's plugin operation is unfinished its repository operation is running |
| PluginQueues.InstallRunsItsPluginOperation | apps/web-server/src/plugin-manager.ts:774-816 | an install that has started has called exactly one plugin operation, for its own plugin, and has not settled before that one has returned |
| PluginQueues.RequestsAreTaken | apps/web-server/src/plugin-manager.ts:335-377 | a request is always taken, behind all earlier ones |
| PluginQueues.NoDeadlock | apps/web-server/src/plugin-manager.ts:774-816 | while any call is unfinished some step other than a new request is possible |
| PluginQueues.RunsAreFinite | apps/web-server/src/plugin-manager.ts:774-816 | from any reachable state runs without new requests are no longer than the work left, so all calls return |
| PluginQueues.FinishedMeansNoTails | apps/web-server/src/plugin-manager.ts:335-377 | both maps of tails are empty once every call has returned |
| AuditLog.Contents | apps/web-server/src/plugin-audit-store.ts:45-110 | in every run the file holds its first contents and then, in call order, the events of the records that took effect |
| AuditLog.RefinesAppend | apps/web-server/src/plugin-audit-store.ts:101-109 | every step appends the event of exactly one record that was not logged, or leaves the log alone |
| AuditLog.ResolvedIsLogged | apps/web-server/src/plugin-audit-store.ts:101-109 | the event of a resolved record is in the log at the record's own place |
| AuditLog.PlacesFollowCalls | apps/web-server/src/plugin-audit-store.ts:101-109 | places are distinct and follow call order, so each logged event is there once per call |
| AuditLog.LogOnlyGrows | apps/web-server/src/plugin-audit-store.ts:68-109 | a longer run only extends the log |
| AuditLog.ListingsAreCurrent | apps/web-server/src/plugin-audit-store.ts:96-100 | a listing shows all that was logged by the calls made before it, and nothing that is not in the log |
| AuditLog.LoggedExactlyWhenRenamed | apps/web-server/src/plugin-audit-store.ts:68-93 | a record took effect exactly when its rename succeeded |
| AuditLog.RejectedMayBeLogged | apps/web-server/src/plugin-audit-store.ts:81-92 | a run in which a record rejects although its event is in the log |
| AuditProgress.SavingAppends | apps/web-server/src/plugin-audit-store.ts:68-109 | a record whose turn it is and whose file operations succeed resolves with its event at the end of the log; if only setting the mode fails it rejects with its event there |
| AuditProgress.RecordsGoOn | apps/web-server/src/plugin-audit-store.ts:101-109 | as long as a record has not settled, the earliest such record can go on |
| AuditProgress.ListingReturns | apps/web-server/src/plugin-audit-store.ts:96-100 | a listing returns the log once the records called before it have settled |
| WorkerPool.StartedOnceInOrder | packages/opencode-goal-supervisor/src/supervisor.ts:276-292 | items are begun in their order, each at most once, and the others have not begun |
| WorkerPool.BoundedInFlight | packages/opencode-goal-supervisor/src/supervisor.ts:276-292 | never more than min(concurrency, n) items are in flight |
| WorkerPool.ResolvedMeansAllStarted | packages/opencode-goal-supervisor/src/supervisor.ts:276-292 | when the call resolves every item was begun exactly once and has ended |
| WorkerPool.QuietMeansRun | packages/opencode-goal-supervisor/src/supervisor.ts:276-292 | once no worker goes on nothing is in flight, and an item is left only if every worker crashed |
| OutboxDispatch.StepsThePool | packages/opencode-goal-supervisor/src/supervisor.ts:414-573 | a step of the batch is a step of `mapConcurrent` or none |
| OutboxDispatch.Conservation | packages/opencode-goal-supervisor/src/supervisor.ts:397-577 | at every moment claimed is absent plus delivered plus failed plus the messages that have not ended or whose `store.status` threw |
| OutboxDispatch.ClaimedIsAccountedFor | packages/opencode-goal-supervisor/src/supervisor.ts:397-577 | when the batch returns and `store.status` never threw, claimed is absent plus delivered plus failed |
| OutboxDispatch.ProbesBeforeDispatching | packages/opencode-goal-supervisor/src/supervisor.ts:452-545 | a message that needs a probe is never dispatched, one that does not is never probed, and the adapter is asked at most once about each |
| OutboxDispatch.CountedMeansAsked | packages/opencode-goal-supervisor/src/supervisor.ts:515-560 | a message counted by its probe's status was probed, and one delivered by a dispatch was dispatched |
| OutboxOutcome.EndedAsAnswered | packages/opencode-goal-supervisor/src/supervisor.ts:414-573 | at every moment a message that has ended has ended as what the store and the adapter answered about it makes it |
| OutboxOutcome.CountersExactly | packages/opencode-goal-supervisor/src/supervisor.ts:397-577 | when the batch returns each counter is the number of messages with such answers, whatever the concurrency and the interleaving |
| Cancellations.Batch.ProcessAll | packages/opencode-goal-supervisor/src/supervisor.ts:1174-1357 | pending is acknowledged plus failed; the store is told exactly of the requests that concluded, in order, and `aborted` counts those that concluded through an abort; each time only after an absent probe or a confirmed abort for that request, of a reference that was durable before the abort |
| Cancellations.Batch.Process | packages/opencode-goal-supervisor/src/supervisor.ts:1193-1355 | one turn counts the request once and acknowledges it exactly when nothing was found to abort or a durable reference was aborted, and the store took it |
| SessionUniqueness.AtMostOnePrompt | packages/opencode-goal-supervisor/src/opencode-adapter.ts:561-663 | over every interleaving, failure and retry of dispatches on one adapter there is at most one session per key, at most one prompt in it, and all successful calls return it with its prompt sent |
| SessionUniqueness.TwoAdaptersDuplicate | packages/opencode-goal-supervisor/src/opencode-adapter.ts:601-617 | for any key and any two adapters there is a run through them in which both calls succeed, each with a session of its own that holds the prompt |
| SessionUniqueness.UniqueExactlyWhen | packages/opencode-goal-supervisor/src/opencode-adapter.ts:561-663 | for any key and any set of adapters, every run whose calls for the key go through the set has at most one session, prompt and returned reference for it exactly when the set has at most one member |
| SessionDispatch.Invariant | packages/opencode-goal-supervisor/src/opencode-adapter.ts:601-663 | the invariant tying the map of running dispatches to sessions and prompts holds in every run |
| SessionProgress.UndisturbedCallReturns | packages/opencode-goal-supervisor/src/opencode-adapter.ts:601-663 | when no dispatch of the key runs, an undisturbed call none of whose requests fails returns a session of the key that holds its prompt: one that held it is left as it is, one without gets its first, and without any one is created; nothing else changes and the key is free again |
| SessionProgress.RetryReturnsTheSame | packages/opencode-goal-supervisor/src/opencode-adapter.ts:641-662 | a retry after a success returns the same session and sends nothing |
| SessionProgress.CallersGetTheOutcome | packages/opencode-goal-supervisor/src/opencode-adapter.ts:601-617 | whoever waits for a dispatch, having started or joined it, gets that dispatch's outcome |
| SessionProgress.FailedRequestThrows | packages/opencode-goal-supervisor/src/opencode-adapter.ts:604-662 | a request that fails makes the call throw and frees the key |
| SessionProgress.NobodyWaitsMeansNoDispatch | packages/opencode-goal-supervisor/src/opencode-adapter.ts:604-617 | once no caller waits the map of running dispatches is empty |
| AttemptVerification.ResumingIsInvisible | packages/opencode-goal-supervisor/src/supervisor.ts:864-1004 | any number of interrupted runs followed by a full one give the outcome, references and failed list of one uninterrupted run |
| AttemptVerification.NeverRunsAgain | packages/opencode-goal-supervisor/src/supervisor.ts:906-914 | a resumed run runs nothing an interrupted one has dealt with |
| AttemptVerification.RunsOnlyUnrecorded | packages/opencode-goal-supervisor/src/supervisor.ts:905-929 | only declared requirements without a recorded verdict are run |
| AttemptVerification.RunsOnceExactlyWhen | packages/opencode-goal-supervisor/src/supervisor.ts:896-929 | no requirement is run twice exactly when no unrecorded id is declared twice |
| AttemptVerification.FailedExactly | packages/opencode-goal-supervisor/src/supervisor.ts:906-976 | the failed list holds exactly the required requirements whose verdict is no pass |
| AttemptVerification.RefsExactly | packages/opencode-goal-supervisor/src/supervisor.ts:896-944 | the references are those the attempt started with and behind them those of the verdicts that count, each once |
| AttemptVerification.RefsFollowTheOrder | packages/opencode-goal-supervisor/src/supervisor.ts:896-944 | what the first requirements give comes first |
| AttemptVerification.OutcomeExactly | packages/opencode-goal-supervisor/src/supervisor.ts:979-1004 | the outcome is rejected exactly when there are more than 64 references, and else carries them and, if it failed, the failed requirements |
| AttemptVerification.CompletedExactlyWhen | packages/opencode-goal-supervisor/src/supervisor.ts:979-1003 | the attempt completes exactly when all required requirements passed and the references fit the outcome schema |
| AttemptVerification.VerifyAttempt | packages/opencode-goal-supervisor/src/supervisor.ts:889-1004 | the loop, stopped anywhere, leaves the log and result the description gives |
| GoalFinalization.FinalizesExactlyWhen | packages/opencode-goal-supervisor/src/supervisor.ts:1064-1172 | a run to the end finalises the goal exactly when every required unit is accepted and every required check passes by its recorded verdict or, without one, by its run, whatever others write to the log about other things |
| GoalFinalization.ResumingTheGoalIsInvisible | packages/opencode-goal-supervisor/src/supervisor.ts:1090-1172 | any number of interrupted runs before it do not change whether a run to the end finalises the goal |
| GoalFinalization.ResumedRunsTheRest | packages/opencode-goal-supervisor/src/supervisor.ts:1115-1125 | after an interrupted run a second one runs exactly the requirements neither recorded before nor dealt with by the first |
| GoalFinalization.VerdictKept | packages/opencode-goal-supervisor/src/supervisor.ts:1064-1152 | running and recording changes the verdict that counts for no requirement, and records those dealt with and no others |
| GoalFinalization.VerifyAndFinalizeGoal | packages/opencode-goal-supervisor/src/supervisor.ts:1090-1172 | nothing is run while a required unit is not accepted; otherwise the method, stopped anywhere, has run and recorded what the description says, and its answer is that of `GoalFinalization.FinalizesExactlyWhen` over the log it started from |
| Base64.DecodeUndoesEncode | apps/web-server/src/plugin-repository-store.ts:223-276 | decoding undoes encoding for all byte strings (section 4 of RFC 4648) |
| RepositoryTrust.Invariant | apps/web-server/src/plugin-repository-store.ts:115-354 | in every state reachable by allowed calls a trusted repository has a stored root whose digest is its fingerprint, and ids stay unique |
| RepositoryTrust.TrustKeptExactlyWhen | apps/web-server/src/plugin-repository-store.ts:215-255 | an accepted operation keeps the trust invariant exactly when it is not an approval of a supplied root for an entry with an empty stored root |
| RepositoryTrust.TrustIsGivenForTheRoot | apps/web-server/src/plugin-repository-store.ts:215-291 | an entry trusted after an operation was trusted before with the same root and fingerprint, or was trusted by it for its stored root's own digest |
| RepositoryTrust.FirstStates | apps/web-server/src/plugin-repository-store.ts:119-151 | no file, a current file and a file from before the built-in repository all start within the invariant |
| RepositoryTrust.EmptyRootBreaksTrust | apps/web-server/src/plugin-repository-store.ts:215-255 | a run of three calls that ends with a trusted repository whose root's digest is not its fingerprint |
| RepositoryOperations.AcceptedExactly | apps/web-server/src/plugin-repository-store.ts:196-354 | an operation is accepted exactly when its repository is known and the digest of the root metadata it approves or stores is the given fingerprint, which for a stored root must also be the recorded one |
| RepositoryOperations.ChangesOnlyItsEntry | apps/web-server/src/plugin-repository-store.ts:215-341 | an accepted operation changes the entry it names and no other, and of that entry neither id nor kind nor URL |
| RepositoryOperations.FetchingKeepsTrustExactly | apps/web-server/src/plugin-repository-store.ts:256-291 | fetched root metadata are stored as fresh, and the trust is kept exactly as long as root and fingerprint are the same |
| RepositoryOperations.FetchedRootIsApproved | apps/web-server/src/plugin-repository-store.ts:215-291 | root metadata that have been fetched can be approved with their own digest and with nothing else |
| RepositoryOperations.ApprovalIsRecorded | apps/web-server/src/plugin-repository-store.ts:239-255 | an approval records fingerprint and trust, keeps a stored root, and stores the supplied one where there is none |
| RepositoryOperations.RemoveSucceeds | apps/web-server/src/plugin-repository-store.ts:342-354 | removing a known repository succeeds and leaves the others in their order |
| RepositoryOperations.BuiltInIsAddedOnce | apps/web-server/src/plugin-repository-store.ts:115-145 | a file from before the built-in repository gains it in front unless it has one of that URL, and no written file gains it again |
| RegularExpression.ManyUnits | apps/web-server/src/workspace-intelligence-service.ts:181-203 | a repeated single-unit expression matches exactly the stretches of such units |
| GlobExpression.Compile | apps/web-server/src/workspace-intelligence-service.ts:181-203 | the expression built for a pattern matches exactly the paths that have the form the pattern text describes, `**` staying on one line |
| GlobExpression.NoLiteralIsAnOperator | apps/web-server/src/workspace-intelligence-service.ts:181-203 | the emitted text parses to one anchored sequence of the intended pieces: no literal is read as an operator |
| GlobExpression.AcceptsExactly | apps/web-server/src/workspace-intelligence-service.ts:181-203 | the same of the emitted text: `*` is any stretch without a slash, `?` one unit other than a slash, `**` any stretch of one line, `**` and a slash nothing or such a stretch up to a slash, and every other unit itself |
| GlobExpression.PiecesDenoteTheGlob | apps/web-server/src/workspace-intelligence-service.ts:181-203 | the pieces the loop reads cover a path exactly when it has that form |
| GlobExpression.AgreesWithTheGlob | apps/web-server/src/workspace-intelligence-service.ts:181-208 | on one-line paths, and for patterns without `**`, the expression is the glob |
| GlobExpression.PatternAgreesExactly | apps/web-server/src/workspace-intelligence-service.ts:181-203 | a pattern agrees with its glob on all paths exactly when it has no `**` |
| GlobExpression.PathAgreesExactly | apps/web-server/src/workspace-intelligence-service.ts:181-203 | all patterns agree with their globs on a path exactly when it has no line terminator |
| SourceInventory.Collect | apps/web-server/src/workspace-intelligence-service.ts:215-368 | for any tree and any clock the file and byte budgets hold, every entry reached is counted once, and without a limit all are reached |
| SourceInventory.Inventory.Visit | apps/web-server/src/workspace-intelligence-service.ts:262-367 | a directory's walk notes, in order, a part of what it contains, and all of it unless a limit is flagged |
| SourceInventory.Inventory.VisitFile | apps/web-server/src/workspace-intelligence-service.ts:307-366 | a file lands in the one bucket its tests, sizes and the bytes accepted so far determine |
| SourceInventory.Ignores | apps/web-server/src/workspace-intelligence-service.ts:252-261 | the loop answers whether the path or one of its ancestors is in the ignored set |
| SourceInventory.AcceptedFits | apps/web-server/src/workspace-intelligence-service.ts:307-366 | an accepted file passed every test and fits the per-file and the total budget |
| SourceInventory.BucketsAddUp | apps/web-server/src/workspace-intelligence-service.ts:220-234 | the accepted files and the counters add up to the entries reached |
| SourceInventory.OneBucketEach | apps/web-server/src/workspace-intelligence-service.ts:262-367 | no path is counted twice, whatever the limits and the clock did |
| CosineSimilarity.CauchySchwarz | packages/inference/src/embeddings.ts:71-91 | the square of the dot product is at most the product of the magnitudes |
| CosineSimilarity.Accumulate | packages/inference/src/embeddings.ts:76-85 | the accumulators are the dot product and the magnitudes and keep that inequality at every turn |
| CosineSimilarity.Score | packages/inference/src/embeddings.ts:71-91 | the score is 0 for vectors that cannot be compared and otherwise their cosine, which lies between -1 and 1 without the clamp |
| CosineSimilarity.ScoreIsUnique | packages/inference/src/embeddings.ts:71-91 | two vectors, comparable or not, have at most one score |
| CosineSimilarity.QuotientIsUnique | packages/inference/src/embeddings.ts:86-90 | the quotient is determined by the vectors |
| CosineSimilarity.Symmetric | packages/inference/src/embeddings.ts:71-91 | the score, 0 for incomparable vectors included, does not depend on the order of the vectors |
| CosineSimilarity.ScalingKeepsTheScore | packages/inference/src/embeddings.ts:71-91 | positive scaling of the vectors does not change the score, 0 included |

## Left out

- Malformed, legacy and very recent incomplete lock records (packages/opencode-goal-supervisor/src/daemon.ts:451-486): all records come from `publishLockOwner`. Candidate file names are private to a call; process identity is an oracle under which a dead incarnation stays dead, and an unreadable identity is an error of the step.
- `markReady`'s check of the service identity, directory creation and file modes around the locks.
- DaemonRecovery.HoldsExactlyWhen: speaks of an undisturbed acquisition, as does LifecycleRecovery.TakesTheLeaseExactlyWhen; with interference other calls may win instead.
- DaemonHandle.ReleasedIsFree: asks for a directory without a guard; under an abandoned one every acquisition fails.
- Locks when a file-system call takes effect and still reports an error: a failing call changes nothing.
- PlanValidator.ValidateAcyclicPlan: takes acceptance criteria as already parsed into subject and polarity, and keys a reported cycle by its set of ids; the order of the reported cycles is not described.
- GoalPlanJsonRecogniser.Recognise: the final `JSON.parse` and the decoding of names are the grammar and its unescaping; the byte limit, the NUL check and the schema of a plan are not modelled.
- GoalPlanFence.Extract: classifies each line once, with both fence tests, before using the result; the scanner's regular expressions are written out as tests on code units.
- CanonicalForm.SameNormalForm: sparse arrays, symbol keys and values other than JSON-like data are not modelled; `JSON.stringify` and the digest that follow are left out.
- UstarArchive.WriteArchive: takes the documents in the order in which the exporter's locale-aware sort leaves them.
- UstarReader.ArchiveIsRead: names and prefixes are bytes, compared before they are decoded.
- UstarArchive.ExportRoundTrip: works on bytes, for documents already in their sorted order; text encoding and decoding, zstd, the archive policy and path safety (parameters here) are left out. The plugin policy would also demand a manifest that the exporter does not write.
- Tar fields are trimmed of ASCII white space only when numbers are read.
- SessionUniqueness.AtMostOnePrompt: assumes that a read sees completed effects and that the server starts without such a session; titles and map keys are one abstract key, as they are injective in the key within a workspace.
- AttemptVerification.VerifyAttempt: heartbeat, baselines, output digests and event filtering are left out; a verdict is a function of the requirement.
- GoalFinalization.VerifyAndFinalizeGoal: starts once the goal is known to execute an active plan; the re-entrancy guard is not modelled, and other writers are assumed to record nothing about these requirements where the verdicts are concerned.
- OutboxDispatch.Conservation: the `errors` list and the store's own records of failures are not counted; a store call that throws is a choice of the step.
- WorkerPool.StartedOnceInOrder: items are never `undefined`, as for the arrays the callers pass.
- Cancellations.Batch.ProcessAll: replies are given per request; `errors` and the records that keep a request pending are left out.
- AuditLog.Contents: temporary files, whose names are fresh, are part of the record's own state; reading sees one whole version of the file.
- RepositoryTrust.FirstStates: assumes that the list of a legacy file and the built-in entry are within the invariant, since the code that wrote them is not part of this model.
- RepositoryTrust.Invariant: SHA-256 is an uninterpreted function and the built-in root is assumed to have the built-in fingerprint; random ids are fresh; a legacy file has unique ids, no id of the built-in repository and no untrue trust. Updates are taken as serialised, which is the queue argument made for the audit store.
- Base64.DecodeUndoesEncode: decoding stops at the first unit outside the alphabet, where the library is more lenient.
- GlobExpression.AcceptsExactly: expressions outside the parsed fragment count as not parsed; none is ever emitted.
- SourceInventory.Collect: the tree does not change during the walk, its entries come in the order of the walk, the ignored set is already normalised, and the path tests are parameters; observation records and the fingerprint are left out.
- CosineSimilarity.Score: exact reals instead of floating point; the square root is a parameter.
- `decideGoalTransition`, `applyWorkspaceIntelligenceGraphBudget`, evidence normalisation and profile validation would only add easy members.
- Plugin `enable`, `disable` and `uninstall` are not serialised in the code, so no queue property is claimed for them.
- The SQLite store, verification processes, TUF, HTTP routes, RPC handlers, provider runners, process spawning, systemd unit files, CLI, TUI dialogs and React code.
