# A verified model of the backend's protocols and algorithms

This project models eight parts of the backend, each small and each with a property that only a proof settles, and
proves those properties with Dafny 4.11. `dafny verify dfyconfig.toml` checks everything.

What the source changes in place is a class here, and each of its methods is proved against a function of the old
state; the same functions are the steps of a state machine in which threads, event loops, remote services and crashes
interleave freely, and the promises are proved over every run of that machine. One SQLite transaction or one lock-held
block is one step. Clocks, time-outs and random ids are steps or values that may come at any moment.

- **Core scheduler** (`Scheduler`, `SchedulerBounds`, `ScheduleExecution`, `ScheduleRuns`): the plan of either strategy is a packed
  timetable; least-loaded placement keeps the loads within one job of each other; longest-first with least-loaded
  placement is within 4/3 − 1/(3m) of any assignment to the same m cores, and so of the FIFO plan. The executor's
  queues keep the planned order, and its results come out in that order however its workers interleave.
- **Tasks and their workspaces** (`TaskEntries`, `TaskStore`, `TaskLifecycle`, `TaskLifecycleProofs`,
  `TaskLifecycleSafety`, `ProcessControl`): the store's transactions over any run; then one task under its worker, cancel
  requests, cleanup retries, the startup pass, the remote run and crashes; and cancellation around a process launch.
- **Log relay** (`LogRelay`, `LogRelayRuns`): retained window, staging, bounded queue, overflow mark and cut-over.
- **GDB/MI** (`Texts`, `MiText`, `MiParser`, `MiRoundTrip`, `MiRecords`, `GdbSession`, `GdbSessionRuns`): the
  backtracking value parser with its printed trees ("GDB/MI Output Syntax" of the GDB user manual), argument quoting,
  and token-correlated commands over the asynchronous reader.
- **Debug command broker** (`Broker`, `BrokerRuns`): requests, time-outs, the dispatcher and close.
- **NDJSON event stream** (`EventStream`): the chunk loop against the split of the whole byte string.
- **Makefile dependency repair** (`Makefiles`, `MakefileText`, `MakefileExpansion`, `BrokenLines`, `MakefileRoundTrip`,
  `MakefileReferences`, `DependencyRepair`, `RepairedMakefile`, `RepairedParsing`, `DanglingTails`, `RuleSizes`,
  `RepairDisturbance`, `DependencyFixpoint`, `PathsAndPatterns`): the parser against printed Makefiles and references, what
  expansion leaves, spellings of paths, patterns, missing dependencies, the appended compensation rules, when the old
  part still reads as before, and how far one round of repair reaches.
- **Debug coordination** (`Coordination`, `CoordinationRuns`, `CoordinationTables`): groups, rules and their events under
  concurrent handlers, and each operation on its tables.

## What turned out not to hold

- The workspace of a finished managed task can be lost track of: the startup pass ends an interrupted task before it
  deletes the workspace, so a second crash in between leaves a workspace that is neither held nor queued. It happens if
  and only if startup recovery ends a task after `create_workspace` and before its hold was recorded:
  `TaskLifecycleSafety.LostExactlyByUnheldRecovery` over whole runs, `DoubleCrashLosesExactlyTheUnheld` at the first crash,
  `AWorkspaceCanBeLost` a run. Only code-generation tasks ever hold, so for the others the window lasts to their end.
- Published artifacts keep their workspace only where success also preserves it. Every caller that asks for artifacts asks
  for both; `TaskLifecycleSafety.UnpreservedArtifactsCanBeDeleted` shows what the options allow, `ArtifactsSurvive` when
  the workspace stays.
- New GDB commands are not always refused after the reader has ended: when the transport closes without a return code
  the state becomes EXITED, which `_execute` does not refuse. `GdbSessionRuns.RefusesExactlyWhenExitIsKnown` says
  exactly when they are, `ACommandCanWaitForNobody` gives a run where a command waits with no reader.
- Close of the broker does not always complete every queued request: a caller that gives up does not take the broker's
  lock, and between close's check and its set of one future it makes close raise. `BrokerRuns.CloseFailsExactlyByRaces` has
  the exact condition, `CloseCompletesTheQueued` and `ClosedLeavesNobodyWaiting` what holds without and with such a race,
  `ARaceLeavesARequestOpen` a run that leaves a request open with nobody to complete it.
- One round of Makefile repair is not always enough for a target known only by a pattern rule, because the added line
  hides the pattern. `DependencyFixpoint.DetectAgain` says exactly for which records it is enough,
  `NothingReportedAgain` when the second detection is empty, and `PatternsCanNeedASecondRound` gives records for which one
  round is not enough.
- A repair can change what the old part of a Makefile means: a logical line that still wants a continuation at the end of
  the file swallows the blank line, and perhaps the comment, of the appended section. The compensation rules are read all
  the same (`RepairedParsing.CompensationsAreAlwaysRead`); `RepairDisturbance.ReadsOnExactlyWhenUndisturbed` has the exact
  condition for the old rules and variables, and `ADanglingRuleIsCutShort` a file that does not meet it.
- Normalization does not give every spelling of a path one name: of `./` only the two characters are taken off, so `.//a`
  becomes `/a`. `PathsAndPatterns.NormalizedMeans` says exactly when it does, `ADotCanBecomeTheRoot` gives the path.
- A coordination rule deleted after its event was delivered can still fire, because the handler looks at group and members
  again but not at the rule. `CoordinationRuns.DeletedRulesFireExactly` says exactly when: if and only if the rule was
  deleted before the handler got the lock of its group. `ADeletedRuleCanFire` gives a run.

## Model

| member | source | states |
|---|---|---|
| Scheduler.ResourceAwarePlanIsStableSort | app/modules/co_debug/scheduler/scheduler.py:58-59 | the resource-aware order holds the same tasks, longest first, ties in submission order |
| Scheduler.StableOrderIsUnique | app/modules/co_debug/scheduler/scheduler.py:58-59 | that order is the only one a stable descending sort can give |
| Scheduler.NormalizeCoreIds | app/modules/co_debug/scheduler/scheduler.py:62-70 | core ids are accepted unchanged exactly when nonempty, non-negative and distinct; none given means core 0 |
| Scheduler.ValidateTasks | app/modules/co_debug/scheduler/scheduler.py:73-78 | a workload is accepted exactly when its names are distinct and nothing has dependencies |
| Scheduler.AssignFifo | app/modules/co_debug/scheduler/scheduler.py:81-102 | round-robin cores; every task gets the slot right after the earlier ones of its core; the loads are the sums |
| Scheduler.MinCore | app/modules/co_debug/scheduler/scheduler.py:114 | the chosen core has the smallest load, and the smallest id among those |
| Scheduler.AssignLeastLoaded | app/modules/co_debug/scheduler/scheduler.py:105-126 | every task goes to the lightest core at its turn, into the next slot of that core |
| Scheduler.SumEstimates | app/modules/co_debug/scheduler/scheduler.py:30 | the estimated total is the sum over the ordered tasks |
| Scheduler.MaxLoad | app/modules/co_debug/scheduler/scheduler.py:31 | the estimated makespan is the largest core load |
| Scheduler.PlanTasks | app/modules/co_debug/scheduler/scheduler.py:7-51 | the whole plan of either strategy, or the first refusal of cores or workload |
| SchedulerBounds.SumLoadsIsTotal | app/modules/co_debug/scheduler/scheduler.py:81-126 | core loads of any assignment to distinct cores add up to the total work |
| SchedulerBounds.LoadsStayBalanced | app/modules/co_debug/scheduler/scheduler.py:113-124 | after every prefix any two loads differ by at most the largest estimate so far, in any task order |
| SchedulerBounds.ListScheduleBound | app/modules/co_debug/scheduler/scheduler.py:105-126 | m times the makespan is at most the total plus m − 1 times the largest estimate |
| SchedulerBounds.LargeJobFinish | app/modules/co_debug/scheduler/scheduler.py:105-126 | a last job longer than a third of the optimum ends by the optimum, by counting long jobs on both sides |
| SchedulerBounds.LongestFirstBound | app/modules/co_debug/scheduler/scheduler.py:58-126 | longest-first with least-loaded placement: 3m times its makespan is at most 4m − 1 times that of any assignment |
| SchedulerBounds.SortCarriesLoads | app/modules/co_debug/scheduler/scheduler.py:58-59 | any assignment of the submitted tasks is one of the sorted tasks with the same loads |
| SchedulerBounds.ResourceAwareNearOptimal | app/modules/co_debug/scheduler/scheduler.py:20-31 | the same bound for the plan itself, against any assignment of the submitted tasks |
| SchedulerBounds.ResourceAwareAgainstFifo | app/modules/co_debug/scheduler/scheduler.py:20-31 | so its makespan is at most 4/3 − 1/(3m) of the FIFO plan's |
| SchedulerBounds.PlanConservesWork | app/modules/co_debug/scheduler/scheduler.py:30-51 | every task is placed once, loads sum to the estimated total, no load exceeds the makespan |
| SchedulerBounds.CoreOrderDoesNotMatter | app/modules/co_debug/scheduler/scheduler.py:114 | the resource-aware assignments do not depend on the order of the core ids |
| ScheduleExecution.BuildCoreQueues | app/modules/co_debug/services/schedule_execution_service.py:119-125 | one queue per planned core with that core's assignments, sorted by queue position |
| ScheduleExecution.TimetableIsPacked | app/modules/co_debug/scheduler/scheduler.py:81-142 | per core: positions 0..k−1, each start the finish before it, the last finish the load |
| ScheduleExecution.ExecutorKeepsPlannedOrder | app/modules/co_debug/services/schedule_execution_service.py:119-125 | sorting by position changes nothing: the executor runs each core's tasks in planned order |
| ScheduleRuns.CoresRunTheirQueues | app/modules/co_debug/services/schedule_execution_service.py:44-93 | in every interleaving each core has completed a first part of its queue, in order, and the counter equals the number of results |
| ScheduleRuns.ResultsComeInPlanOrder | app/modules/co_debug/services/schedule_execution_service.py:95-117 | when all workers have finished, the sorted results are those of the plan's tasks, each once, in plan order, and the counts reported were 1, 2, ... up to all tasks |
| TaskEntries.RunAdvances | app/platform/services/task_store.py:276-350 | over any run of transactions: progress and revision never fall, every change raises the revision, terminal status, result and artifact mark are final, the cancel flag is never lowered |
| TaskEntries.AtMostOneStartWins | app/platform/services/task_store.py:676-705 | at most one try_start of any run wins |
| TaskEntries.TerminalEnteredOnce | app/platform/services/task_store.py:575-674 | a run enters a terminal status once, exactly when it ends in one it did not begin in |
| TaskEntries.CancelBeatsFinalization | app/platform/services/task_store.py:575-674 | a cancel requested before finalization forces CANCELLED and keeps the old result, whatever ran in between |
| TaskEntries.OutcomeIsKept | app/platform/services/task_store.py:575-674 | whatever ran before and runs after, a finalization of a running, uncancelled task leaves the outcome's status, result, error, exit code and elapsed time for good, with the larger progress and the command as it was |
| TaskEntries.EveryEndHasItsCause | app/platform/services/task_store.py:575-754 | every terminal row of every run was ended by one operation, a cancel request, a finalization or the startup pass, and keeps exactly the status, error, result and exit code that one calls for |
| TaskEntries.StatusMoves | app/platform/services/task_store.py:276-754 | which operation moves the status and where to; nothing else does |
| TaskEntries.FlagMoves | app/platform/services/task_store.py:276-305 | only a cancel request to an active task raises the flag |
| TaskEntries.CallersAreTold | app/platform/services/task_store.py:276-705 | who is told that the start was won, the request was the first, the command was taken |
| TaskEntries.ProgressMoves | app/platform/services/task_store.py:307-350 | when progress and command change, and to what |
| TaskEntries.OutcomeMoves | app/platform/services/task_store.py:603-638 | result, exit code, elapsed time, error and revision at a finalization, counted or cancelled |
| TaskEntries.OutcomeStays | app/platform/services/task_store.py:276-754 | no other operation changes them, but for the error of a cancel or of the startup pass |
| TaskEntries.MetadataMoves | app/platform/services/task_store.py:352-537 | which operation patches the metadata with what; a revision rises by at most one |
| TaskEntries.WorkspaceMoves | app/platform/services/task_store.py:371-674 | hold, queued cleanup and artifact mark after every operation |
| TaskEntries.PatchKeyByKey | app/platform/services/task_store.py:352-369 | a patch key by key: a null removes, anything else sets, what is not named stays |
| TaskStore.TaskStore.Save | app/platform/services/task_store.py:239-253 | a fresh task is PENDING with result "{}", no error, progress 0 and revision 0, and touches no other |
| TaskStore.TaskStore.TryStart | app/platform/services/task_store.py:676-705 | PENDING without a cancel request becomes RUNNING and the caller is told it won, else nothing changes |
| TaskStore.TaskStore.RequestCancelWithTransition | app/platform/services/task_store.py:276-305 | raises the flag of an active task once, and ends a pending one |
| TaskStore.TaskStore.UpdateProgress | app/platform/services/task_store.py:307-328 | progress moves only while running, not cancelled and not backwards |
| TaskStore.TaskStore.UpdateCommandIfRunning | app/platform/services/task_store.py:330-350 | the command changes only while running and not cancelled |
| TaskStore.TaskStore.MergeMetadata | app/platform/services/task_store.py:352-369 | merges one task's metadata as a flat patch |
| TaskStore.TaskStore.MarkWorkspaceCleanupPending | app/platform/services/task_store.py:371-379 | queues a cleanup unless one is queued |
| TaskStore.TaskStore.HoldWorkspaces | app/platform/services/task_store.py:403-433 | hold and metadata change in one transaction |
| TaskStore.TaskStore.ReleaseWorkspaces | app/platform/services/task_store.py:435-465 | release and metadata change in one transaction |
| TaskStore.TaskStore.QueueWorkspaceCleanupAndReleaseHold | app/platform/services/task_store.py:467-498 | the cleanup is queued with its completion metadata as the hold goes |
| TaskStore.TaskStore.CompleteWorkspaceCleanup | app/platform/services/task_store.py:500-537 | the queue row goes and its metadata is merged, together |
| TaskStore.TaskStore.FinalizeWithTransition | app/platform/services/task_store.py:575-674 | a running task that nobody asked to cancel ends with exactly the outcome's status, result, error, exit code and elapsed time and the larger progress, otherwise CANCELLED with its old result; any other task stays; artifact and cleanup rows are written in the same transaction |
| TaskStore.TaskStore.RecoverInterruptedTasks | app/platform/services/task_store.py:707-754 | every active task ends, cancelled if so requested, and no other task changes |
| TaskStore.TaskStore.ListWorkspaceCleanupPending | app/platform/services/task_store.py:389-401 | exactly the tasks with a queued cleanup |
| TaskLifecycle.FinalizeMatches | app/platform/services/task_store.py:575-674 | on the part of the entry that decides about the workspace, the state machine's finalization is the store's |
| TaskLifecycle.QueueMatches | app/platform/services/task_store.py:467-498 | likewise for queueing a cleanup with the clearing metadata |
| TaskLifecycle.CleanupMatches | app/platform/services/task_store.py:371-379 | likewise for marking and completing a cleanup |
| TaskLifecycle.HoldAndReleaseMatch | app/platform/services/task_store.py:403-465 | likewise for hold and release |
| TaskLifecycle.StartMatches | app/platform/services/task_store.py:676-705 | likewise for the start, which wins exactly when the status moves |
| TaskLifecycle.CancelMatches | app/platform/services/task_store.py:276-328 | likewise for a cancel request, and progress changes nothing of it |
| TaskLifecycle.RunMetadataMatches | app/platform/services/task_store.py:352-369 | likewise for recording the remote run and its confirmed end |
| TaskLifecycleProofs.RunKeepsInv | app/modules/code_generation/task_service.py:161-306 | the invariant across store, task service and adapter holds in every state of every run, and what is kept is never taken away |
| TaskLifecycleSafety.OnlySafeWorkspacesAreDeleted | app/modules/code_generation/task_service.py:696-782 | whatever step makes a workspace disappear: create_run was never attempted, was refused, or the remote run was seen in a terminal status |
| TaskLifecycleSafety.NobodyWritesIntoADeletedWorkspace | app/modules/code_generation/task_service.py:202-293 | from the deletion on no remote run is alive or started |
| TaskLifecycleSafety.ArtifactsSurvive | app/platform/services/task_store.py:640-672 | a task with an artifact row has succeeded and keeps the row for ever; its workspace stays whenever success preserves it, so for every code-generation and process task |
| TaskLifecycleSafety.PreservedWorkspacesSurvive | app/platform/services/task_service.py:804-830 | a preserved success keeps for ever the workspace it ended with |
| TaskLifecycleSafety.SuccessWasObserved | app/modules/code_generation/task_service.py:220-250 | a code-generation success is recorded only after the remote run was seen to end |
| TaskLifecycleSafety.HoldAndPendingGoTogether | app/modules/code_generation/task_service.py:204 | held implies cleanup_pending, which implies held or queued with the clearing metadata, never both |
| TaskLifecycleSafety.HeldExactlyWhenPending | app/modules/code_generation/task_service.py:202 | while a managed task is active its workspace is accounted for if and only if its hold was recorded |
| TaskLifecycleSafety.FinalizedWorkspacesAreAccountedFor | app/platform/services/task_service.py:804-877 | after any managed task ended, unless it is a preserved success, its workspace is held, queued or gone at every crash point, if startup recovery has not ended it between create_workspace and the hold |
| TaskLifecycleSafety.LostExactlyByUnheldRecovery | app/platform/services/task_service.py:338-387 | over every run: a finished managed task's workspace is lost in some state if and only if startup recovery ends the task between create_workspace and the hold |
| TaskLifecycleSafety.DoubleCrashLosesExactlyTheUnheld | app/platform/services/task_service.py:338-387 | two crashes in a row lose an active managed task's workspace if and only if the first came after create_workspace and before the hold was recorded |
| TaskLifecycleSafety.AWorkspaceCanBeLost | app/platform/services/task_service.py:338-387 | a run in which that happens |
| TaskLifecycleSafety.UnpreservedArtifactsCanBeDeleted | app/platform/services/task_service.py:804-877 | a run in which the workspace of a success that publishes artifacts without preserving is deleted |
| ProcessControl.ProcessTaskControl.RequestCancel | app/platform/services/task_service.py:54-59 | the flag is set; the worker is cancelled unless a launch is under way |
| ProcessControl.ProcessTaskControl.BeginLaunch | app/platform/services/task_service.py:61-65 | the launch starts if and only if neither the control's flag nor the store's is set, and then only `launching` changes |
| ProcessControl.ProcessTaskControl.ProcessStarted | app/platform/services/task_service.py:67-72 | a cancel that came during the launch cancels the worker now |
| ProcessControl.LaunchIsNeverTorn | app/platform/services/task_service.py:54-77 | the worker is never cancelled between begin_launch and process_started |
| ProcessControl.CancelIsNeverLost | app/platform/services/task_service.py:451-463 | a returned cancel request: launch refused, cancel pending until the process is reported, worker cancelled, or worker over |
| ProcessControl.FlaggedTaskIsNeverLaunched | app/platform/services/task_service.py:1005-1034 | a task flagged before the worker reads the flag is never launched |
| ProcessControl.LaunchesExactlyUnflagged | app/platform/services/task_service.py:61-65 | in every interleaving, holding the lock, the worker launches if and only if the store flag it read was down, and is over otherwise |
| ProcessControl.ReportedProcessIsCancelled | app/platform/services/task_service.py:67-72 | the process of a cancelled launch is cancelled as soon as it is reported |
| LogRelay.MoveIsAllOrOverflow | app/platform/services/log_service.py:161-185 | a drain delivers everything staged in order, or leaves the overflow mark alone in the queue |
| LogRelay.DrainedExactly | app/platform/services/log_service.py:161-185 | what a drain leaves of queue, staging and marks, for an active subscriber and for one that is gone |
| LogRelay.TaskLogService.Append | app/platform/services/log_service.py:85-140 | the message is stored and staged as it is, one number above the largest; the rows left are those within max_lines of it; subscribers whose loop is gone are dropped |
| LogRelay.TaskLogService.StageEvent | app/platform/services/log_service.py:142-159 | staging, overflow at the limit, one scheduled drain |
| LogRelay.TaskLogService.DrainSubscriber | app/platform/services/log_service.py:161-185 | the staged items move item by item, as the specification says |
| LogRelay.TaskLogService.SubscribeWithHistory | app/platform/services/log_service.py:202-215 | a fresh subscriber, the history and its cut-over, under one lock |
| LogRelay.TaskLogService.Unsubscribe | app/platform/services/log_service.py:217-232 | the subscriber is made inactive and removed, no other changes |
| LogRelayRuns.InsertKeepsWindow | app/platform/services/log_service.py:105-131 | the n-th message is inserted as number n and the table stays the last max_lines messages |
| LogRelayRuns.SentIsGapFree | app/main.py:119-130 | history followed by the consumed live events is one gap-free, duplicate-free, in-order stretch of the appended messages; the cut-over filter discards nothing |
| LogRelayRuns.NothingAfterOverflow | app/platform/services/log_service.py:161-185 | the overflow mark is the last thing a queue ever gives |
| LogRelayRuns.NothingIsDroppedSilently | app/platform/services/log_service.py:142-185 | what a subscriber has not consumed waits in order, with a drain scheduled, unless the mark waits or was met |
| LogRelayRuns.BuffersAreBounded | app/platform/services/log_service.py:142-185 | staging, queue and rows never exceed max_lines |
| LogRelayRuns.HistoryIsTheLastEvents | app/platform/services/log_service.py:105-131 | the rows are exactly the last min(n, max_lines) messages ever appended, numbered from 1 |
| LogRelayRuns.MessagesKeepTheirNumbers | app/platform/services/log_service.py:85-140 | the n-th appended message is number n in the table, in the history a client was given and in what it is sent, ever after |
| LogRelayRuns.StagedAtEveryAppend | app/platform/services/log_service.py:142-159 | what one append does to each client: the message is staged, or the mark alone, and a client is dropped exactly when its loop is gone and no drain is scheduled |
| LogRelayRuns.NothingAfterUnsubscribe | app/platform/services/log_service.py:161-232 | once a client is unsubscribed or dropped nothing more reaches its queue |
| MiText.EscapedIsPerCharacter | app/modules/co_debug/debug/mi_commands.py:257-290 | the five replacements equal one escape per character |
| MiText.QuoteIsOneLine | app/modules/co_debug/debug/mi_commands.py:257-290 | a quoted argument holds no raw line break |
| MiText.DecimalReadsBack | app/modules/co_debug/debug/mi_parser.py:80-90 | a printed token is read back as the number |
| MiText.EscapeLetters | app/modules/co_debug/debug/mi_parser.py:565-575 | the nine one-letter escapes and no other |
| MiText.CharacterKinds | app/modules/co_debug/debug/mi_parser.py:460-490 | which characters are digits, octal and hexadecimal digits, and name characters |
| MiText.MiCommandBuilder.Build | app/modules/co_debug/debug/mi_commands.py:232-254 | every command starts with a token no earlier one had |
| MiParser.ValueAt | app/modules/co_debug/debug/mi_parser.py:285-314 | a parsed value consumes at least one character and stays inside the text, on every input |
| MiParser.MiValueParser.ParseValue | app/modules/co_debug/debug/mi_parser.py:285-314 | the parser object reads what the text holds at its position, and stops there |
| MiParser.MiValueParser.ParseTuple | app/modules/co_debug/debug/mi_parser.py:326-347 | likewise for tuples |
| MiParser.MiValueParser.ParseList | app/modules/co_debug/debug/mi_parser.py:349-413 | likewise for lists of values or results |
| MiParser.MiValueParser.ParseResults | app/modules/co_debug/debug/mi_parser.py:231-283 | likewise for results, a repeated name keeping its last value |
| MiParser.MiValueParser.TryParseResult | app/modules/co_debug/debug/mi_parser.py:415-459 | a failed attempt puts the position back exactly; an error of chr is not caught |
| MiParser.MiValueParser.ParseName | app/modules/co_debug/debug/mi_parser.py:461-494 | the longest run of name characters, never empty |
| MiParser.MiValueParser.ParseBareValue | app/modules/co_debug/debug/mi_parser.py:496-524 | the stripped text up to a delimiter, never empty |
| MiParser.MiValueParser.ParseCString | app/modules/co_debug/debug/mi_parser.py:526-616 | C strings with every escape |
| MiParser.MiValueParser.ParseHexEscape | app/modules/co_debug/debug/mi_parser.py:618-647 | hexadecimal escapes of any length |
| MiParser.MiValueParser.ParseOctalEscape | app/modules/co_debug/debug/mi_parser.py:649-678 | up to three octal digits |
| MiRoundTrip.ValueRoundTrip | app/modules/co_debug/debug/mi_parser.py:231-459 | parsing any printed tree, every kind of escape included, gives exactly its meaning and ends at its end, whatever stands around it |
| MiRoundTrip.QuoteRoundTrip | app/modules/co_debug/debug/mi_parser.py:526-616 | a quoted argument is read back as the argument, for every string |
| MiRecords.ParseMiLine | app/modules/co_debug/debug/mi_parser.py:32-121 | a line is read as token, marker and payload, or refused; the next two rows say which |
| MiRecords.ParseStreamRecord | app/modules/co_debug/debug/mi_parser.py:124-161 | a stream record is one string and nothing else |
| MiRecords.ParseResultOrAsyncRecord | app/modules/co_debug/debug/mi_parser.py:164-204 | a class, and results to the end of the line |
| MiRecords.RecordRoundTrip | app/modules/co_debug/debug/mi_parser.py:17-204 | every printed `^`, `*`, `+` or `=` line is read back as a result, exec, status or notify record with its token, class and results |
| MiRecords.StreamRoundTrip | app/modules/co_debug/debug/mi_parser.py:25-161 | every printed `~`, `@` or `&` line is read back as a console, target or log record with its text, and the prompt as the prompt |
| MiRecords.ReplyCarriesToken | app/modules/co_debug/debug/mi_parser.py:80-121 | the reply to a command carries that command's token |
| MiRecords.LineEndsAreCut | app/modules/co_debug/debug/mi_parser.py:32-60 | carriage returns and newlines at the end of a line change nothing |
| MiRecords.OtherLinesAreUnknown | app/modules/co_debug/debug/mi_parser.py:60-121 | a line with any other marker is a record of no known kind that says nothing but its token |
| MiRecords.TextBehindAStringIsRefused | app/modules/co_debug/debug/mi_parser.py:124-161 | a stream record with anything but blanks behind its string is refused |
| GdbSession.GdbMiSession.Begin | app/modules/co_debug/debug/session.py:741-778 | a command is refused or registered, under a token no other command had |
| GdbSession.GdbMiSession.Withdraw | app/modules/co_debug/debug/session.py:780-819 | a command that was not sent or timed out waits no more |
| GdbSession.GdbMiSession.HandleRecord | app/modules/co_debug/debug/session.py:909-1020 | what each record does to futures, state and stop event, which the rows from `GdbSessionRuns.ReplyCompletesItsCommand` on say kind by kind |
| GdbSession.GdbMiSession.SetState | app/modules/co_debug/debug/session.py:1137-1153 | state and stop event move together |
| GdbSession.GdbMiSession.FailWaiters | app/modules/co_debug/debug/session.py:1155-1178 | every pending future and the ready future fail, no other |
| GdbSession.GdbMiSession.ReaderEnds | app/modules/co_debug/debug/session.py:862-907 | EXITED or FAILED by cause, and the waiters fail unless the reader was cancelled |
| GdbSession.GdbMiSession.CloseEnds | app/modules/co_debug/debug/session.py:731-739 | close keeps FAILED and makes everything else EXITED |
| GdbSessionRuns.StopEventIsExact | app/modules/co_debug/debug/session.py:1137-1153 | the stop event is set exactly in STOPPED, EXITED and FAILED |
| GdbSessionRuns.StopHoldsUntilRunning | app/modules/co_debug/debug/session.py:1137-1153 | once set, the stop event is cleared only by a running record |
| GdbSessionRuns.CompletedByItsOwn | app/modules/co_debug/debug/session.py:978-1004 | a waiting command is completed only by a result with its own token, by the reader's end, or by its own time-out |
| GdbSessionRuns.CompletedOnce | app/modules/co_debug/debug/session.py:741-819 | how a command was completed never changes |
| GdbSessionRuns.LateReplyIsIgnored | app/modules/co_debug/debug/session.py:803-819 | a late reply to a timed-out command completes nothing |
| GdbSessionRuns.RepliesMatchTokens | app/modules/co_debug/debug/session.py:978-1004 | every reply a command got carries its token |
| GdbSessionRuns.ReplyCompletesItsCommand | app/modules/co_debug/debug/session.py:978-1004 | over every run: a result record with the token of a waiting command completes that command with it at once, takes it off the pending ones, and completes no other |
| GdbSessionRuns.ExecRecordsMoveTheState | app/modules/co_debug/debug/session.py:1006-1022 | `running` leads to RUNNING and clears the stop event, `stopped` to STOPPED or EXITED and sets it, any other exec record changes nothing |
| GdbSessionRuns.StopsForTheReason | app/modules/co_debug/debug/session.py:1024-1045 | the reason of a stop is recorded, and EXITED follows exactly from one that starts with "exited" |
| GdbSessionRuns.PromptMakesReady | app/modules/co_debug/debug/session.py:913-934 | the first prompt makes a starting session READY and completes the start; later ones change nothing |
| GdbSessionRuns.OtherRecordsChangeNothing | app/modules/co_debug/debug/session.py:936-980 | stream, status and notify records and results without a token change nothing |
| GdbSessionRuns.StoppedLineStops | app/modules/co_debug/debug/mi_parser.py:17-204 | from text to state: a printed `*stopped` line sets the stop event, with the state and the reason its results print |
| GdbSessionRuns.RunningLineRuns | app/modules/co_debug/debug/mi_parser.py:17-204 | after a printed `*running` line the state is RUNNING and the stop event is clear |
| GdbSessionRuns.ReplyLineCompletes | app/modules/co_debug/debug/session.py:978-1004 | a printed reply line completes the command whose token it starts with, with the class and results it prints |
| GdbSessionRuns.CommandsAreRegisteredAfresh | app/modules/co_debug/debug/session.py:741-778 | over every run a command gets a token never used before and waits, or is refused, exactly when not started, closed, FAILED or exited |
| GdbSessionRuns.OverdueCommandsAreWithdrawn | app/modules/co_debug/debug/session.py:780-819 | a time-out or failed send withdraws that command and no other |
| GdbSessionRuns.ReaderEndLeaves | app/modules/co_debug/debug/session.py:862-907 | at the end of the reader every waiting command and the start have failed, and the state is EXITED exactly for a clean or intended end |
| GdbSessionRuns.CloseLeavesExitedOrFailed | app/modules/co_debug/debug/session.py:731-739 | the step that closes leaves FAILED as it is and makes anything else EXITED, stop event set |
| GdbSessionRuns.ClosedStaysClosed | app/modules/co_debug/debug/session.py:691-739 | a closed session refuses every command and reads nothing any more |
| GdbSessionRuns.RefusesExactlyWhenExitIsKnown | app/modules/co_debug/debug/session.py:866-907 | after the reader's end commands are refused if and only if it was a fault or a return code is known |
| GdbSessionRuns.NobodyWaitsAfterTheReader | app/modules/co_debug/debug/session.py:1155-1178 | then no command waits any more, for ever |
| GdbSessionRuns.ACommandCanWaitForNobody | app/modules/co_debug/debug/session.py:876-890 | otherwise a command can wait with no reader |
| Broker.DebugCommandBroker.Request | app/modules/co_debug/debug/broker.py:113-157 | accepted in order unless closed |
| Broker.DebugCommandBroker.Receive | app/modules/co_debug/debug/broker.py:182-224 | the first request whose caller still waits, or the end |
| Broker.ReceiveTakesTheFirstLive | app/modules/co_debug/debug/broker.py:182-224 | receiving passes over exactly the requests given up at the front and takes what comes next, a live request or the end |
| Broker.DebugCommandBroker.Complete | app/modules/co_debug/debug/broker.py:226-248 | a done future stays as it is |
| Broker.DebugCommandBroker.Close | app/modules/co_debug/debug/broker.py:250-307 | when nobody else moves: every queued open request fails and only the marker is left |
| BrokerRuns.EveryRequestIsSomewhere | app/modules/co_debug/debug/broker.py:113-307 | every accepted request is queued at its turn, the one in flight, taken by close, or completed |
| BrokerRuns.CompletedOnce | app/modules/co_debug/debug/broker.py:226-307 | none is completed twice, even when a time-out falls between check and set of the dispatcher or of close |
| BrokerRuns.HandOutIsFifo | app/modules/co_debug/debug/broker.py:182-224 | hand-out follows acceptance; only requests given up or taken by close are passed over |
| BrokerRuns.CloseFailsExactlyByRaces | app/modules/co_debug/debug/broker.py:250-307 | close raises, or is bound to, if and only if a caller gave up between its check and its set of one future |
| BrokerRuns.CloseCompletesTheQueued | app/modules/co_debug/debug/broker.py:250-307 | without such a race close completes for good everything it took off the queue, leaves its marker, and nothing is accepted |
| BrokerRuns.WhatCloseLeaves | app/modules/co_debug/debug/broker.py:250-307 | with one, only requests close had not come to yet can stay open |
| BrokerRuns.AbandonedOnlyGiveUp | app/modules/co_debug/debug/broker.py:250-307 | and those are completed by nobody but their own callers' giving up |
| BrokerRuns.ARaceLeavesARequestOpen | app/modules/co_debug/debug/broker.py:250-307 | a run in which that happens and the dispatcher has returned |
| BrokerRuns.ClosedTakesEverything | app/modules/co_debug/debug/broker.py:250-307 | however close ends, nothing is accepted once it has begun and no request stays queued |
| BrokerRuns.UninterruptedCloseIsClose | app/modules/co_debug/debug/broker.py:250-307 | the steps of close, with nobody else moving, amount to the method |
| BrokerRuns.ClosedLeavesNobodyWaiting | app/modules/co_debug/debug/manager.py:40-84 | once close and the dispatcher have returned, every request ever accepted is completed if there was no race, and otherwise all but those close had not come to |
| EventStream.ScanChunks | app/modules/vulnerability/client.py:92-142 | the chunk loop gives the result of the whole byte string, so any two ways of cutting it into chunks agree |
| EventStream.ScanPending | app/modules/vulnerability/client.py:115-138 | the inner loop takes exactly the complete lines |
| EventStream.SplitAppend | app/modules/vulnerability/client.py:112-117 | splitting goes on where it stopped: only the rest matters for what follows |
| EventStream.AbsorbedExactly | app/modules/vulnerability/client.py:118-138 | all lines are taken exactly under the event-count, size, JSON and single-done conditions |
| EventStream.BatchSucceedsExactly | app/modules/vulnerability/client.py:109-142 | success, its done event and its reported kinds, characterized for every byte string |
| Makefiles.ParseMakefile | app/modules/co_debug/dependency/makefile_parser.py:25-161 | the line loop computes the specified rules and variables |
| Makefiles.ParseLine | app/modules/co_debug/dependency/makefile_parser.py:42-146 | one logical line with its continuation lines |
| Makefiles.ExpandText | app/modules/co_debug/dependency/makefile_parser.py:163-193 | the loop of at most ten passes computes the expansion that the next rows are about |
| MakefileExpansion.ExpandedExactly | app/modules/co_debug/dependency/makefile_parser.py:163-193 | expansion is ten passes; no resolvable reference is left if and only if at most ten nested passes already leave none, and then it is what those give |
| MakefileExpansion.SelfReferenceUnfoldsTenTimes | app/modules/co_debug/dependency/makefile_parser.py:163-193 | a variable that refers to itself is unfolded ten times around a reference that stays |
| MakefileReferences.OnePassReads | app/modules/co_debug/dependency/makefile_parser.py:163-211 | one pass over any printed text replaces exactly the references to known variables, in round or curly brackets, plain or exchanging a suffix of every word, and tells whether there was one |
| MakefileReferences.AssignedValue | app/modules/co_debug/dependency/makefile_parser.py:80-97 | the four operators on any value: only `:=` expands it, with the variables known there |
| MakefileReferences.AssignmentIsSpelled | app/modules/co_debug/dependency/makefile_parser.py:6 | a name, an operator and a value are read whatever blanks stand between them, none included |
| MakefileReferences.RuleLineExpands | app/modules/co_debug/dependency/makefile_parser.py:105-146 | both sides of a rule line are expanded before they are split, and `.PHONY` makes no rule |
| MakefileReferences.CommentsAreCut | app/modules/co_debug/dependency/makefile_parser.py:76-103 | a comment behind a rule is cut off and a line that is one is skipped |
| MakefileReferences.ParsedIsExpanded | app/modules/co_debug/dependency/makefile_parser.py:148-161 | in the end every part of every rule is expanded with the variables known at the end |
| MakefileReferences.PrerequisitesAreExpanded | app/modules/co_debug/dependency/makefile_parser.py:213-221 | prerequisites are expanded and split again, in order |
| BrokenLines.BrokenLineReads | app/modules/co_debug/dependency/makefile_parser.py:60-74 | a logical line printed in any number of indented continuation lines reads as its pieces joined by single blanks, under the number of the first |
| BrokenLines.BrokenRecipeReads | app/modules/co_debug/dependency/makefile_parser.py:44-58 | and so does a recipe |
| MakefileRoundTrip.MakefileReadsBack | app/modules/co_debug/dependency/makefile_parser.py:25-161 | parsing any printed Makefile of rules, order-only prerequisites, recipes and assignments, its lines broken in any way, gives exactly what its entries mean, line numbers included |
| MakefileRoundTrip.AssignMeans | app/modules/co_debug/dependency/makefile_parser.py:80-97 | the four operators: set, set expanded, set if unknown, append after a blank |
| MakefileRoundTrip.PrerequisitesSplit | app/modules/co_debug/dependency/makefile_parser.py:127-146 | one rule per target; what stands before the bar is normal, what stands after it order-only |
| DependencyRepair.BuildDeclaredMap | app/modules/co_debug/dependency/dependency_detector.py:70-100 | the union of all explicit lines per normalized target |
| DependencyRepair.DetectMissing | app/modules/co_debug/dependency/dependency_detector.py:19-68 | what is reported, the cached pattern targets changing nothing |
| DependencyRepair.GroupDependencies | app/modules/co_debug/dependency/dependency_repair.py:129-160 | missing dependencies grouped by target |
| DependencyRepair.AppendCompensationRules | app/modules/co_debug/dependency/dependency_repair.py:162-191 | one rule per target, targets and dependencies each listed once in ascending order, after a blank line and the comment; nothing of the Makefile is lost, and nothing is added exactly when nothing is missing |
| DependencyRepair.CompensationsAreUnique | app/modules/co_debug/dependency/dependency_repair.py:162-191 | these conditions leave one choice only, so the repaired text is a function of what is missing |
| DependencyFixpoint.NormalizedIsFixed | app/modules/co_debug/dependency/dependency_detector.py:102-114 | a normalized path without blanks is a fixed point of normalization |
| PathsAndPatterns.PosixPathMeans | app/modules/co_debug/dependency/dependency_detector.py:112-114 | slashes beyond the root, empty pieces and single dots say nothing about which file a path names |
| PathsAndPatterns.NormalizedMeans | app/modules/co_debug/dependency/dependency_detector.py:102-114 | every spelling of a path is normalized to the one name of its file if and only if it does not start with a dot and two slashes |
| PathsAndPatterns.ADotCanBecomeTheRoot | app/modules/co_debug/dependency/dependency_detector.py:108-114 | `.//a` is taken for `/a` |
| PathsAndPatterns.StemExactly | app/modules/co_debug/dependency/pattern_rule_resolver.py:38-43 | a pattern with one `%` matches exactly prefix, any stem on one line, suffix |
| PathsAndPatterns.NoStem | app/modules/co_debug/dependency/pattern_rule_resolver.py:38-40 | a pattern with no `%`, or with two, matches nothing |
| PathsAndPatterns.FilledExactly | app/modules/co_debug/dependency/pattern_rule_resolver.py:15-21 | every `%` of a prerequisite is filled with the stem |
| PathsAndPatterns.FirstMatchCounts | app/modules/co_debug/dependency/pattern_rule_resolver.py:9-25 | the first rule that matches counts, filled in, its recipes and line kept |
| PathsAndPatterns.DeclaredExactly | app/modules/co_debug/dependency/dependency_detector.py:30-48 | all explicit lines of a target together declare what any of them names; only a target without one gets a pattern |
| PathsAndPatterns.ReportedExactly | app/modules/co_debug/dependency/dependency_detector.py:19-68 | reported is exactly what some record needs and the rules for its declared target do not declare, in normalized names |
| RepairedParsing.CompensationsAreAlwaysRead | app/modules/co_debug/dependency/dependency_repair.py:162-191 | whatever the Makefile was, every compensation rule is read, after the old part with its dangling line continued by the blank line and perhaps the comment |
| RepairDisturbance.ReadsOnExactlyWhenUndisturbed | app/modules/co_debug/dependency/makefile_parser.py:44-138 | the repaired Makefile gives the original rules followed by one recipe-free rule per target, variables unchanged, if and only if no logical line dangles or it is a comment, an assignment without effect, or adds no rule or recipe |
| RepairDisturbance.RepairedParse | app/modules/co_debug/dependency/dependency_repair.py:162-191 | so it does for every such file |
| RepairDisturbance.ADanglingRuleIsCutShort | app/modules/co_debug/dependency/makefile_parser.py:60-74 | a file with a blank last line for which it does not, whatever is appended |
| RepairDisturbance.SettledIsUndisturbed | app/modules/co_debug/dependency/makefile_parser.py:44-74 | a file that leaves no logical line wanting a continuation is one for which it does |
| RepairedMakefile.FreshStartExactlyWhenSettled | app/modules/co_debug/dependency/makefile_parser.py:48-75 | appended text starts a line of its own if and only if no logical line is left wanting a continuation |
| RepairedMakefile.SettledByLastLine | app/modules/co_debug/dependency/makefile_parser.py:48-75 | a last line that is neither blank nor ends in a backslash is enough for that |
| DependencyFixpoint.DeclaredByRepaired | app/modules/co_debug/dependency/dependency_detector.py:37-48 | compensated targets gain exactly their missing dependencies, and a pattern-only one loses its pattern |
| DependencyFixpoint.RepairedExactly | app/modules/co_debug/dependency/dependency_detector.py:19-68 | after one round a record has nothing missing if and only if its target is explicit, had nothing missing, or has no dependency from a pattern |
| DependencyFixpoint.DetectAgain | app/modules/co_debug/dependency/dependency_detector.py:19-68 | the same for the whole round of parse, detect, repair, parse and detect |
| DependencyFixpoint.NothingReportedAgain | app/modules/co_debug/dependency/dependency_detector.py:19-68 | the second detection reports nothing at all if and only if one round is enough for every record |
| DependencyFixpoint.PatternsCanNeedASecondRound | app/modules/co_debug/dependency/pattern_rule_resolver.py:9-25 | records for which one round is not enough |
| Coordination.DebugCoordinationStore.Create | app/modules/co_debug/services/debug_coordination_store.py:220-267 | group and members together, or nothing when a session is already associated |
| Coordination.DebugCoordinationStore.CreateRule | app/modules/co_debug/services/debug_coordination_store.py:336-362 | no second active rule like it |
| Coordination.DebugCoordinationStore.DeleteRule | app/modules/co_debug/services/debug_coordination_store.py:378-392 | marks one active rule of the group deleted |
| Coordination.DebugCoordinationStore.RemoveMember | app/modules/co_debug/services/debug_coordination_store.py:510-526 | ends one association of an open group |
| Coordination.DebugCoordinationStore.CloseGroup | app/modules/co_debug/services/debug_coordination_store.py:528-549 | closes the group and ends all its associations together |
| Coordination.DebugCoordinationStore.ClaimEvent | app/modules/co_debug/services/debug_coordination_store.py:431-466 | the first claim of a pair of event and rule wins, every later one is refused |
| Coordination.DebugCoordinationStore.FinalizeEvent | app/modules/co_debug/services/debug_coordination_store.py:468-488 | records the outcome of a claim |
| CoordinationTables.CreatedExactly | app/modules/co_debug/services/debug_coordination_store.py:220-267 | a group is created if and only if it is new and its partitions are new, unassociated and distinct; then exactly those are added |
| CoordinationTables.RuleCreatedExactly | app/modules/co_debug/services/debug_coordination_store.py:336-362 | a rule is accepted if and only if its id is new and no active rule has its group, partitions and breakpoint |
| CoordinationTables.NoTwoActiveRulesAlike | app/modules/co_debug/services/debug_coordination_store.py:336-392 | over every run active rules differ in group, partitions or breakpoint |
| CoordinationTables.TriggeredExactly | app/modules/co_debug/services/debug_coordination_store.py:394-429 | which rules an event triggers |
| CoordinationTables.RowsEndExactly | app/modules/co_debug/services/debug_coordination_store.py:378-526 | when deleting a rule or removing a partition is accepted, and the one row it changes |
| CoordinationTables.ClosedExactly | app/modules/co_debug/services/debug_coordination_store.py:528-549 | closing ends the associations of that group's members and nothing else |
| CoordinationTables.ClaimedExactly | app/modules/co_debug/services/debug_coordination_store.py:431-488 | a claim wins if and only if its row and its pair are new, and its outcome is recorded in that row |
| CoordinationRuns.SessionsJoinOneOpenGroup | app/modules/co_debug/services/debug_coordination_store.py:76-82 | over all runs a session is associated with at most one group, and that one is open |
| CoordinationRuns.EventsTriggerOneGroup | app/modules/co_debug/services/debug_coordination_store.py:394-429 | all rules a breakpoint event triggers belong to one open group and one source partition |
| CoordinationRuns.ClosedGroupsHaveNoMembers | app/modules/co_debug/services/debug_coordination_store.py:528-549 | a closed group has no associated member |
| CoordinationRuns.AtMostOneInterrupt | app/modules/co_debug/services/debug_coordination_service.py:417-451 | each pair of event and rule attempts at most one interrupt, under duplicate delivery and restarts |
| CoordinationRuns.RecordedInterruptsWereAttempted | app/modules/co_debug/services/debug_coordination_service.py:453-556 | a record says that a command was sent only if an interrupt was attempted for its event and rule |
| CoordinationRuns.InterruptsOnlyTheAssociated | app/modules/co_debug/services/debug_coordination_service.py:453-556 | an interrupt is attempted only while the group is open and both partitions are associated |
| CoordinationRuns.DeletedRulesFireExactly | app/modules/co_debug/services/debug_coordination_service.py:166-168 | over all runs: an interrupt is attempted for a deleted rule if and only if the rule, active at delivery, was deleted before the handler took its group's lock; from there on it does not change |
| CoordinationRuns.UndeletedRulesFireActive | app/modules/co_debug/services/debug_coordination_service.py:417-451 | a rule nobody deletes while the handler waits is active at its interrupt |
| CoordinationRuns.ADeletedRuleCanFire | app/modules/co_debug/services/debug_coordination_service.py:417-556 | a run that meets that condition and attempts an interrupt for a deleted rule |

## Left out

- HTTP routes, schemas, settings, dependency wiring, OpenAPI export and demo scripts: no property that needs a proof.
- SQL text, migrations and serialization: tables are maps, json_patch is a flat merge, timestamps are left out.
- Subprocesses, signals, CPU affinity and the clock: time-outs are steps that may come at any moment.
- Zip extraction, link checks and path resolution: a workspace is present or gone.
- gcc -MM and recipe scraping: the actual dependencies of a build are given.
- Scheduler: `estimated_ms` is at least 1 by its schema; notes, progress percentages and log callbacks; the times a process took.
- Interactive sessions and self-scan copies. Managed tasks other than code generation create workspaces and end; none of them holds, as no caller does.
- TaskLifecycleSafety.FinalizedWorkspacesAreAccountedFor: speaks of managed tasks; the workspace of a process task is deleted without a queue, so a crash before that leaves it.
- TaskLifecycleSafety.OnlySafeWorkspacesAreDeleted: takes the terminal states of the remote run as absorbing, and a refused create_run as having started nothing.
- A shutdown of the task service is a crash here, or cancel requests followed by one.
- Log relay: one service instance, as the repository's README asks; `LogRelay.TaskLogService.Append` treats a failed transaction as leaving everything as it was.
- MiParser.ValueAt: letters, digits and blanks are the ASCII ones, a lone surrogate counts as outside the character range, and Python's recursion limit is not modelled.
- GdbSession: output lists, frame details, breakpoint bookkeeping and published events; a future is known by its command's token.
- GdbSessionRuns.NobodyWaitsAfterTheReader: says nothing about a reader that close cancels, after which commands end by their own time-outs.
- Broker: operation arguments and results are not modelled; requests are known by their number; the dispatcher is not cancelled inside `receive`.
- `DebugSessionManager.register`, `unregister` and `close_session`: a dictionary of brokers.
- EventStream.ScanChunks: what on_event was told before a failure is not part of the result; every failure is one refusal, including the lookup of an unhashable event type; the HTTP client is left out.
- Makefiles.ParseMakefile: lines end at newline characters only, and letters, digits and blanks are the ASCII ones.
- MakefileRoundTrip.MakefileReadsBack: the printed entries hold no references; what expansion makes of those is in `MakefileReferences` and `MakefileExpansion`.
- DependencyFixpoint.DetectAgain: file names hold no blanks and none of `: # $ = | % \`, and no target is `.PHONY`, whose rule line the parser skips.
- MakefileReferences.OnePassReads: printed references are closed and not nested; what a pass leaves is read by the next.
- PathsAndPatterns.NormalizedMeans: the path has no blanks at its ends, which normalization would strip.
- `PatternRuleResolver.target_for_prerequisite`: used only by the analyzer of actual dependencies.
- Coordination: ids are numbers, times and messages are left out, rules have the one action there is; group commands on all members are not modelled.
- Several workers over one database: the repository runs a single worker.
