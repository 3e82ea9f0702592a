# Verified models of the automation, ACP, bridge and dev-cycle cores

This project models, in Dafny, the parts of the repository whose correctness spans several
steps, stores or calls, and proves what they keep. Time is an integer count of nanoseconds,
stores are maps whose calls may fail, and every failure a caller can see is an outcome of the
model rather than a precondition. Code that changes state is modelled by methods and classes
that change state; code made of expressions is modelled by functions.

| file | what it models |
|---|---|
| `Ordering.dfy`, `Text.dfy`, `Runs.dfy` | byte-wise string order, sorting, white space trimming, run statuses; shared by the rest |
| `TaskGraph.dfy`, `TaskImport.dfy` | the ordering of an imported task graph and the import built on it |
| `ScheduleTime.dfy`, `CatchUp.dfy` | next and latest missed run, the bisection over a cron schedule, the four catch-up policies |
| `SchedulerStore.dfy`, `Scheduler.dfy`, `SchedulerRuns.dfy` | the durable cursor, what reconciling a job comes to, and every interleaving of loops, of the loads and writes of registry operations, and of restarts |
| `SchedulerCursor.dfy`, `SchedulerCatchUp.dfy` | when the stored cursor never goes back over those runs, and which fires are handed over after a reconciliation |
| `SchedulerRuntime.dfy` | the scheduler object, whose operations are sequences of the steps of those runs |
| `FireLimit.dfy`, `Retry.dfy`, `DispatchAttempt.dfy` | the rolling fire limit under the concurrency gate, retry delays, and the run and session of every attempt of a dispatch |
| `PromptStream.dfy` | the event stream of a prompt, with tool results held back until their call |
| `TerminalWindow.dfy` | the bounded output window of a terminal, shifted and trimmed in place |
| `Keyset.dfy`, `BridgeCatalog.dfy`, `JobCatalog.dfy` | keyset pages and whole walks over them, and the two catalogs cut that way |
| `DetailsBlocks.dfy` | nested details blocks in review bodies: matching, extraction, stripping |
| `TriggerResources.dfy` | creating, updating and deleting a trigger over two stores with compensation |
| `Definitions.dfy`, `ManagedSync.dfy` | the comparison of definitions and the reconciliation of one managed source |
| `Suggestions.dfy` | accepting a suggested job over two stores, crashes, and the recovery at start |
| `TriggerFilter.dfy` | the interpreted and the compiled trigger filter |

What the code does that a reader may not expect, each with its exact condition proved:

- The bisection for the latest missed cron run can move a cursor backwards
  (`CatchUp.LatestBeforeMissed`): exactly when the cursor is not a cron instant, an instant lies
  within the second before it, and none lies between it and now. A fire-limit deferral
  can leave such a cursor (`SchedulerCursor.DeferralThenReconcileMovesBack`).
- One loop and an unchanged schedule are not enough for the stored cursor never to go back. A
  registry operation loads the cursor and later saves what follows from it without looking again,
  and the lock it holds does not keep a loop from claiming or deferring in between. A save of the
  very cursor that was loaded can so undo a granted claim
  (`SchedulerCursor.SaveOverClaimLowersCursor`), and one that moves the cursor can be followed by a
  granted claim behind it (`SchedulerCursor.LateReconcileLowersCursor`).
  `SchedulerCursor.ReconcileIsSafe` says, from cursor and loops at the load, which reconciliations
  are safe: one that writes nothing or ends the cursor always; one that saves it where it was
  exactly when no loop of the job can claim anew or defer before it needs the lock; one that puts
  it forward, or records a skip not recorded yet, exactly when no loop in flight holds a fire or
  can claim anything but what is claimed or being skipped; one that puts it back never.
  `SchedulerCursor.UnsafeReconcileLowers` shows a continuation that lowers the cursor for every
  other one.
- A deferral whose read-back fails is stored and not published, so the next claim can put the
  cursor back with no reconciliation at all (`SchedulerCursor.FailedReadBackLowersCursor`): exactly
  when the run after the claimed one does not lie beyond the stored cursor
  (`SchedulerCursor.GrantedClaimRaisesIff`).
- The fire limit is checked and acted on in separate steps. The bound that always holds is the
  maximum plus the slots minus one; it is reached for every maximum and every number of slots, so
  the maximum itself is kept exactly with a single slot (`FireLimit.MaximumIsKeptIffSingleSlot`).
  The run query is closed at both ends, so the retry time itself still refuses.
- Retry delays double exactly if and only if the last one stays below 2^63
  (`Retry.DelaysExactIff`). Beyond that a delay is zero or negative exactly when the doubling
  modulo 2^64 is zero or at least 2^63 (`Retry.DelayIsNotPositiveIff`).
- A failed move to running leaves the new session open. Such an attempt is retried exactly when it
  worked on a reserved run that had failed before, because the run handed back still carries the
  old failure; so a dispatch can succeed and leave a session open for good
  (`DispatchAttempt.StuckIsRetriedIff`, `DispatchAttempt.StaleFailureLeaksSession`).
- The window of a terminal depends on how a stream was cut into writes exactly when, behind its
  first byte, more consecutive non-lead bytes than the limit end among its last limit bytes
  (`TerminalWindow.WindowIsAFunctionOfTheStream`, `TerminalWindow.CutsMatter`).
- Stripping details blocks leaves a tag behind exactly when the text is not balanced, or the text
  outside the blocks ends, before some block, with the first part of a tag and goes on behind it
  with the rest (`DetailsBlocks.StrippedHoldsTagIff`).
- A secret write can fail after it wrote, in its read-back, and is then not compensated; a
  captured secret is put back trimmed, and a blank one is removed
  (`TriggerResources.CreateFailureLeavesNoTrace` and its two companions,
  `TriggerResources.FailedCreateOverwrites`).
- A missing key and an empty value compare the same in `sameStringMap`, in one direction only
  (`Definitions.SameMapNotSymmetric`).
- The plain definition sync compares with the listing taken before its loop, so a list that wants
  two different definitions under one id is not met (`ManagedSync.PlainSyncOfJobs`,
  `ManagedSync.ContradictingListNotMet`).
- The recovery of accepted suggestions refuses to run once the job of an accepted suggestion was
  edited to say something else, and, as long as what counts as a valid job does not change and the
  stores work, only then (`Suggestions.RunStaysRecoverable`, `Suggestions.EditedJobStopsRecovery`).

## Model

| member | source | states |
|---|---|---|
| TaskGraph.TopologicalIds | extensions/dev-cycle/import_tasks_graph.go:34-93 | For distinct ids: an error exactly when the graph has a cycle, naming, sorted, exactly the nodes on or below a cycle; otherwise the lexicographically least topological order under (task number, id) |
| TaskGraph.OrderIndependentOfListing | extensions/dev-cycle/import_tasks_graph.go:34-93 | The order does not depend on how nodes and edges are listed |
| TaskGraph.GreedyIsLeast | extensions/dev-cycle/import_tasks_graph.go:65-77 | Always placing the least ready id yields the least of all topological orders |
| TaskGraph.PlaceNext | extensions/dev-cycle/import_tasks_graph.go:66-76 | One iteration keeps: placed ids are predecessor-closed and greedy, counts are the unplaced predecessors, ready is the sorted list of unplaced ids without any |
| TaskGraph.RelaxSuccessors | extensions/dev-cycle/import_tasks_graph.go:70-75 | Each successor loses one predecessor per edge; exactly those that reach zero join the ready list, once |
| TaskGraph.IndexEdges | extensions/dev-cycle/import_tasks_graph.go:47-56 | Counts and successor lists match the edges between known nodes, with their multiplicity |
| TaskGraph.IndexNodes | extensions/dev-cycle/import_tasks_graph.go:38-46 | Every node, and nothing else, starts with no predecessors, and the numbers are those of the nodes |
| TaskGraph.InitialReady | extensions/dev-cycle/import_tasks_graph.go:57-63 | The first ready list is exactly the ids without predecessors, sorted |
| TaskGraph.NumbersOfNodes | extensions/dev-cycle/import_tasks_graph.go:41-46 | With distinct ids the number map has the number of every node and no other id |
| TaskGraph.CollectRemaining | extensions/dev-cycle/import_tasks_graph.go:79-85 | The ids reported are those that still wait for a predecessor, sorted |
| TaskGraph.UnplacedFacts | extensions/dev-cycle/import_tasks_graph.go:78-92 | With nothing ready, the unplaced nodes are those on or below a cycle, and there are none exactly when there is no cycle |
| TaskImport.ValidateNodes | extensions/dev-cycle/import_tasks_parser.go:210-255 | Accepted exactly when every node has an id, a base-name file that matches it and was matched by the pattern, and ids and files are distinct |
| TaskImport.ValidateEdges | extensions/dev-cycle/import_tasks_parser.go:257-288 | Accepted exactly when every edge names two different known nodes and no edge is repeated |
| TaskImport.BlocksByTarget | extensions/dev-cycle/import_tasks_graph.go:104-113 | The blockers of each id are the sources of its edges, sorted |
| TaskImport.OrderTasks | extensions/dev-cycle/import_tasks_graph.go:14-32 | The loaded files in topological order, or the first id that has none |
| TaskImport.BuildPayloads | extensions/dev-cycle/import_tasks_parser.go:106-121 | One payload for each task that is not completed, in order, with its blockers |
| TaskImport.OrderPutsBlockersFirst | extensions/dev-cycle/import_tasks_graph.go:14-32 | In the payload list every blocker of a task is completed or comes before it |
| TaskImport.ImportTasks | extensions/dev-cycle/import_tasks_parser.go:73-123 | Which of the errors is reported and why; on success the payloads are the open tasks, least order first, blockers first |
| ScheduleTime.ClosedFormIsStepping | internal/automation/schedule_catchup.go:41-51 | For positive intervals the closed form equals stepping one interval at a time past now, and its product stays in 64 bits while elapsed plus interval does |
| ScheduleTime.NextIsOneStepBeyondLatest | internal/automation/schedule_catchup.go:115-129 | The next run after a miss is one step beyond the latest missed run |
| ScheduleTime.LatestMissedCronRunAt | internal/automation/schedule_catchup.go:137-164 | The bisection ends with the greatest cron instant in (missed - 1s, now], or with the missed cursor when there is none |
| ScheduleTime.LatestMissedRunAt | internal/automation/schedule_catchup.go:115-135 | For intervals the last grid point at or before now; for cron the bisection; otherwise the missed cursor |
| CatchUp.ReconcileMissedCursor | internal/automation/schedule_catchup.go:59-91 | The whole state left by each of the four policies, and when the missed fire is to be skipped |
| CatchUp.ClaimsAreTheDueFires | internal/automation/schedule_time.go:54-83 | Claims from a cursor are exactly the fires from it up to now, strictly increasing |
| CatchUp.NextFire | internal/automation/schedule_time.go:54-83 | nextRunAfter takes a fire to the next fire of the schedule, skipping none |
| CatchUp.ReplayClaimsEveryMissedFire | internal/automation/schedule_catchup.go:59-91 | Replay claims every missed instant up to now exactly once, in increasing order |
| CatchUp.CoalesceClaimsTheLatest | internal/automation/schedule_catchup.go:59-91 | Coalesce, run-once, and skip within its grace claim exactly one instant, the latest at or before now |
| CatchUp.SkipClaimsNothing | internal/automation/schedule_catchup.go:59-91 | Skip beyond its grace claims none and leaves the cursor at the first fire after now |
| CatchUp.LatestBeforeMissed | internal/automation/schedule_catchup.go:137-164 | Exactly when the bisection answers with an instant before the missed cursor |
| SchedulerStore.Store.ClaimScheduledRun | internal/store/globaldb/global_db_automation_scheduler.go:100-158 | One atomic step: a fire already claimed is refused with the stored cursor, otherwise the run or the skip is recorded and the cursor moves |
| SchedulerStore.Store.SaveSchedulerState | internal/store/globaldb/global_db_automation_scheduler.go:60-80 | Replaces the cursor of one job and touches nothing else, or fails without a write |
| SchedulerStore.Store.DeleteSchedulerState | internal/store/globaldb/global_db_automation_scheduler.go:83-96 | Removes the cursor of one job and touches nothing else, or fails without a write |
| SchedulerRuns.HandedAtMostOnce | internal/automation/schedule_execution.go:108-157 | Over every interleaving of the steps of loops, of the loads, writes and releases of registry operations, and of restarts, each (job, instant) is handed to the dispatcher at most once |
| SchedulerRuns.RecordedSkipNeverHanded | internal/automation/schedule_reconcile.go:109-146 | In every such run a fire recorded as skipped is never handed over, before or after, also when a loop and a reconciliation want it at once |
| SchedulerRuns.StepKeepsFireInvariant | internal/automation/schedule_execution.go:74-157 | Every step keeps: handed and held fires have their own claimed row, and no two places hold the same fire |
| SchedulerRuns.ReachableIsSafe | internal/automation/schedule_execution.go:74-157 | In every reachable world no fire was handed over twice, and registrations are kept under their id |
| SchedulerCursor.CursorNeverDecreases | internal/automation/schedule_claim.go:19-129 | Over any run with one loop for the job, an unchanged interval or cron schedule, reconciliations that are safe when they load, and saves that are read back, the stored cursor never decreases while it lasts, and strictly rises over any span with a granted claim |
| SchedulerCursor.StepRaisesCursor | internal/automation/schedule_claim.go:19-129 | No such step lowers the cursor, a granted claim raises or ends it, and memory keeps agreeing with the store |
| SchedulerCursor.UnsafeReconcileLowers | internal/automation/schedule_reconcile.go:11-146 | Any other reconciliation of a stored cursor that has not ended can go on, without a fault and with all else in order, so that the cursor goes back or a granted claim does not raise it |
| SchedulerCursor.SaveOverClaimLowersCursor | internal/automation/schedule_reconcile.go:26-54 | A run with one loop: a reconciliation loads the cursor 0, the loop claims and puts it to 10, and the save puts it back to 0 |
| SchedulerCursor.LateReconcileLowersCursor | internal/automation/schedule_registry.go:36-100 | A run with one loop in which a reconciliation puts the cursor to 100 and a granted claim then to 10 |
| SchedulerCursor.FailedReadBackLowersCursor | internal/automation/schedule_claim.go:112-119 | A run without a reconciliation after the start: a deferral to the fifth minute is stored and its read-back fails, and the next claim puts the cursor to the third |
| SchedulerCursor.GrantedClaimRaisesIff | internal/automation/schedule_claim.go:19-57 | A granted claim from any registration raises the stored cursor exactly when the run after the claimed one lies beyond it, or there is none |
| SchedulerCursor.DeferralThenReconcileMovesBack | internal/automation/schedule_claim.go:105-109 | A run in which a deferred cron cursor is moved back by a reconciliation with no loop in flight |
| SchedulerCursor.LatestOfDue | internal/automation/schedule_catchup.go:115-164 | Coalescing leaves a due cursor exactly when nothing later is due, and moves it back exactly where the bisection does |
| SchedulerCursor.WrittenCursor | internal/automation/schedule_reconcile.go:11-146 | Where the cursor lies after each kind of reconciliation, whatever was stored in between: kept, ended, saved where it was loaded, skipped to after now, advanced to a run that is due, or put back |
| SchedulerCatchUp.HandedAreTheClaims | internal/automation/schedule_execution.go:74-157 | Between two moments without a loop of the job, with claims granted and no deferral, exactly the claims of its cursor are handed over, in order, whatever other jobs do |
| SchedulerCatchUp.CatchUpHandsOver | internal/automation/schedule_catchup.go:59-91 | After the load, write and registration of a missed cursor, with other jobs in between, such a run hands over: under replay every missed fire once and in order, under coalesce and run-once the latest alone, under skip beyond its grace none |
| SchedulerRuntime.Runtime.ReconcileSchedulerState | internal/automation/schedule_reconcile.go:11-54 | The store and the state after reconciling a job: merged, planned, unchanged or catch-up; it fails exactly when a write it needs fails or a refused skip finds no cursor |
| SchedulerRuntime.OnlyStoreFails | internal/automation/schedule_reconcile.go:11-54 | For a valid schedule reconciling fails only when the store does |
| SchedulerRuntime.Runtime.ReconcileMissed | internal/automation/schedule_reconcile.go:109-146 | A missed cursor is saved as the policy says, or its fire is recorded as skipped through a claim; when this fails |
| SchedulerRuntime.Runtime.Install | internal/automation/schedule_registry.go:164-212 | Installed exactly for a planned schedule whose reconciliation succeeds, by the steps that load, write and register; a past one-time job only saves its state |
| SchedulerRuntime.Runtime.Register | internal/automation/schedule_registry.go:13-33 | Succeeds exactly for an enabled job that is not registered and can be installed; otherwise the cursor of a disabled job is deleted, a past one-time job saved, or nothing changes |
| SchedulerRuntime.Runtime.Update | internal/automation/schedule_registry.go:36-100 | Succeeds exactly for a registered enabled job that can be installed; otherwise its registration is dropped, with the cursor when it is disabled, or nothing changes |
| SchedulerRuntime.Runtime.Unregister | internal/automation/schedule_registry.go:103-122 | The registration goes, and the stored cursor unless the store fails |
| SchedulerRuntime.Runtime.DeferAfterFireLimit | internal/automation/schedule_claim.go:95-129 | The steps that save, read back and publish the deferred cursor, or none but the end of the loop when the store fails |
| SchedulerRuntime.Runtime.ExecuteScheduledJob | internal/automation/schedule_execution.go:108-157 | Which steps of refusal, skip, hand-over and deferral an execution is, by the answers of store and dispatcher; so no fire is ever handed over twice |
| SchedulerRuntime.LeadsToReachable | internal/automation/schedule_execution.go:74-157 | What the operations lead to is reachable, so what holds of every run holds of the object |
| FireLimit.EvaluateFireLimit | internal/automation/dispatch_reservation.go:168-232 | Refuses exactly when the uncancelled runs of the window reach the maximum, with their count and the time the oldest leaves the window |
| FireLimit.FireLimitBound | internal/automation/dispatch_reservation.go:97-126 | In every interleaving of C gate slots with a monotone clock, uncancelled unreserved runs started in any window number at most Max + C - 1 |
| FireLimit.SingleSlotMeetsLimit | internal/automation/dispatch_reservation.go:14-26 | With one slot the maximum itself is kept |
| FireLimit.BoundIsAttained | internal/automation/dispatch_reservation.go:97-126 | For every maximum and every number of slots C a run reaches exactly Max + C - 1 |
| FireLimit.MaximumIsKeptIffSingleSlot | internal/automation/dispatch_reservation.go:97-126 | Every run keeps the maximum if and only if there is a single slot |
| FireLimit.EvaluationCountsTheWindow | internal/automation/dispatch_reservation.go:179-207 | What the evaluation step compares is the count over the rows of the run query |
| FireLimit.RetryAtIsTheBoundary | internal/automation/dispatch_reservation.go:208-231 | With no new runs, fewer runs are counted exactly at the times after the retry time |
| FireLimit.StepKeepsBounded | internal/automation/dispatch_reservation.go:97-126 | Every step keeps the number of runs before each place, together with the slots still in flight, within the bound |
| Retry.DelaysExactIff | internal/automation/dispatch_retry.go:124-137 | All delays are the exact doublings if and only if base * 2^(MaxRetries - 1) stays below 2^63 |
| Retry.DelayIsNotPositiveIff | internal/automation/dispatch_retry.go:124-137 | A delay is zero or negative exactly when base * 2^(attempt - 1) modulo 2^64 is zero or at least 2^63 |
| Retry.DelayIsExact | internal/automation/dispatch_retry.go:124-137 | Below that bound every delay is the exact doubling and positive |
| Retry.LateDelaysAreZero | internal/automation/dispatch_retry.go:124-137 | From the 65th attempt on every delay is zero |
| Retry.WaitedInAll | internal/automation/dispatch_retry.go:124-137 | While nothing overflows, m retries wait base * (2^m - 1) in all |
| Retry.DelayCanWrap | internal/automation/dispatch_retry.go:124-137 | A base of one nanosecond is negative at the 64th attempt and zero after it |
| DispatchAttempt.Dispatcher.Attempt | internal/automation/dispatch_reservation.go:14-95 | The gate slot is given back; whether a session is opened and how it is left; the row stored and handed back; and success exactly for a run stored as completed or delegated, or cancelled by its hook |
| DispatchAttempt.Dispatcher.ReserveRun | internal/automation/dispatch_reservation.go:97-166 | When an attempt gets its run and which; otherwise the refusal, where a reserved run refused by the fire limit is cancelled for schedules and failed for others |
| DispatchAttempt.Dispatcher.RunAgent | internal/automation/dispatch_reservation.go:36-94 | Which admitted agent attempts open a session, and the run, session and error each of its ends leaves |
| DispatchAttempt.Dispatcher.RunTask | internal/automation/dispatch_task_run.go:17-76 | The run and error each end of a task-backed attempt leaves; only an enqueued task run delegates |
| DispatchAttempt.Dispatcher.FinishAfterStop | internal/automation/dispatch_task_run.go:179-201 | A stop that fails turns a completed run into a failed one and leaves the session open |
| DispatchAttempt.Dispatcher.FinishRun | internal/automation/dispatch_task_run.go:121-177 | The status, end time and error of a finished run, or the unchanged run when the update fails |
| DispatchAttempt.Dispatch | internal/automation/dispatch.go:375-423 | The attempts of a dispatch: each has its effect on the run as it was last handed back, a further one follows exactly as long as the last asks for a retry and the wait is not interrupted, at most MaxRetries + 1 in all; result and waited time |
| DispatchAttempt.SessionsOfDispatch | internal/automation/dispatch_reservation.go:48-94 | The sessions after a dispatch are exactly those from before and those its attempts opened, with the state each was left in |
| DispatchAttempt.OpenSessionIffBlamed | internal/automation/dispatch_reservation.go:62-68 | A session stays open exactly when it could not be stopped or its run could not be moved to running, the latter before the last attempt only for a reserved run that had failed |
| DispatchAttempt.StuckIsRetriedIff | internal/automation/dispatch_retry.go:114-122 | An attempt that cannot move its run to running is retried exactly when it worked on a reserved run that had failed |
| DispatchAttempt.StaleFailureLeaksSession | internal/automation/dispatch_reservation.go:62-68 | A dispatch of three attempts that succeeds without a failed stop and leaves the second session open |
| DispatchAttempt.RowsOfDispatch | internal/automation/dispatch.go:375-423 | A dispatch with a reserved run touches no other row, and one without only the rows its attempts create |
| PromptStream.ActivePrompt.EmitPromptEvent | internal/acp/agent_process_prompt.go:150-174 | After every event the pending list, id index, seen set and channel are those of the stream function of all accepted events; a closed prompt accepts none |
| PromptStream.ActivePrompt.DeferToolResult | internal/acp/agent_process_prompt.go:176-196 | Holds back exactly the results with an id whose call has not been seen; a second one with a pending id is dropped, and a full list loses its oldest |
| PromptStream.ActivePrompt.FlushDeferredToolResultsForTool | internal/acp/agent_process_prompt.go:209-233 | Releases the pending results of one tool in order and keeps the others, filtered in place in the same array |
| PromptStream.ActivePrompt.FlushDeferredToolResults | internal/acp/agent_process_prompt.go:235-245 | Releases all pending results in order |
| PromptStream.ActivePrompt.DropOldestPendingToolResult | internal/acp/agent_process_prompt.go:247-254 | Drops the first pending result and its id |
| PromptStream.ActivePrompt.MarkToolCallSeen | internal/acp/agent_process_prompt.go:198-207 | The call's id joins the seen set, unless it is empty |
| PromptStream.ActivePrompt.EndPrompt | internal/acp/agent_process_prompt.go:58-75 | The prompt is closed and its stream unchanged |
| PromptStream.RunWellFormed | internal/acp/agent_process_prompt.go:176-254 | In every run at most 128 results are pending, with distinct non-empty ids disjoint from the seen calls |
| PromptStream.ResultsFollowCalls | internal/acp/agent_process_prompt.go:150-245 | Every emitted result with an id is preceded by its call, or was pending when a done event released everything |
| PromptStream.FollowsBeforeDone | internal/acp/agent_process_prompt.go:150-245 | What was emitted before the first done event came always follows its call, whatever comes later |
| PromptStream.Conservation | internal/acp/agent_process_prompt.go:150-254 | Every accepted event is emitted once, pending, a duplicate of a pending id, or evicted from a full list |
| PromptStream.OthersKeepTheirOrder | internal/acp/agent_process_prompt.go:150-174 | Events that are not results are emitted in the order they came, none lost |
| PromptStream.ResultsKeepTheirOrder | internal/acp/agent_process_prompt.go:150-254 | In every run the results of each tool that are emitted and then pending are those accepted, in the same order, with dropped ones left out |
| PromptStream.ResultsAllInHand | internal/acp/agent_process_prompt.go:150-254 | None is left out when none of that tool was dropped |
| TerminalWindow.ByteSlice.AppendWindow | internal/acp/terminal_access.go:138-171 | The in-place window equals the function of old window, source and limit; truncated says whether it was cut |
| TerminalWindow.ByteSlice.Overflow | internal/acp/terminal_access.go:152-169 | When both do not fit, the last limit bytes of old window and source, moved in place or into a buffer of that capacity |
| TerminalWindow.ByteSlice.TrimUtf8LeadingBytes | internal/acp/terminal_access.go:173-183 | The leading non-lead bytes are dropped and the rest shifted down |
| TerminalWindow.Terminal.AppendOutput | internal/acp/terminal_process.go:104-112 | Window and truncation mark are those of the whole sequence of writes |
| TerminalWindow.WindowIsSuffix | internal/acp/terminal_access.go:138-171 | After any writes the window is a suffix of the stream of at most limit bytes, and truncated holds exactly when the stream is longer than the limit |
| TerminalWindow.FedCutsOnce | internal/acp/terminal_access.go:138-171 | Whatever the writes, the window is that of a single cut somewhere and an append |
| TerminalWindow.WindowIsAFunctionOfTheStream | internal/acp/terminal_access.go:138-171 | For every limit: the window is the stream if it fits, else its last limit bytes without leading non-lead bytes, for every way to cut this stream into writes, exactly when every limit + 1 bytes that end among its last limit bytes, and do not start it, contain a lead byte |
| TerminalWindow.CutsMatter | internal/acp/terminal_access.go:138-171 | Three bytes under a limit of one leave nothing when written at once and the last byte when cut |
| TerminalWindow.WindowOfCharacters | internal/acp/terminal_access.go:138-187 | For streams of whole characters (section 4 of RFC 3629) and a limit of at least 3 this holds, and the window starts at a character |
| TerminalWindow.LockedBuffer.Write | internal/acp/locked_buffer.go:10-15 | The buffer holds the last bytes of everything written |
| TerminalWindow.BoundedTail | internal/acp/locked_buffer.go:23-35 | Appending to a bounded tail gives the bounded tail of the longer stream |
| Keyset.PageStart | internal/bridges/catalog_records.go:260-293 | The binary search finds the number of leading items not after the cursor |
| Keyset.CutPage | internal/bridges/catalog_records.go:90-147 | A page is the segment of the sorted listing behind the cursor; its next cursor is the position of its last item, or none at the end |
| Keyset.ListingIndependentOfOrder | internal/bridges/catalog_records.go:111-116 | With distinct positions the sorted listing does not depend on the order of the items |
| Keyset.WalkOfUnchanged | internal/bridges/catalog_records.go:260-293 | Following the cursor over an unchanged collection gives its sorted listing, no item twice |
| Keyset.FollowingCompletes | internal/bridges/catalog_records.go:90-147 | Over an unchanged collection there is one walk: following the cursor gives a prefix of it, and it ends with the whole listing after exactly one page for every limit items, rounded up, and one for none |
| Keyset.PageCountRoundsUp | internal/bridges/catalog_records.go:90-147 | That number is the items divided by the limit, rounded up |
| Keyset.WalkAscends | internal/bridges/catalog_records.go:260-293 | Whatever changes between pages, a walk only moves forward and never repeats a position |
| Keyset.StableRecordAppearsOnce | internal/bridges/catalog_records.go:260-293 | A record present under the same position throughout a completed walk appears exactly once |
| BridgeCatalog.NormalizeQuery | internal/bridges/catalog.go:101-160 | Exactly which queries are accepted, and the filter and limit they become, defaults included |
| BridgeCatalog.BuildPage | internal/bridges/catalog_records.go:90-147 | Which query and cursor errors are reported; on success the page of the matching bridges, and facets over all of them |
| BridgeCatalog.CountFacets | internal/bridges/catalog_records.go:245-258 | Each facet is the exact number of matching bridges; the status facets add up to their number |
| BridgeCatalog.IssuedCursorIsUsable | internal/bridges/catalog_records.go:132-146 | The cursor a page hands out is accepted with the next query |
| BridgeCatalog.StableBridgeListedOnce | internal/bridges/catalog_records.go:90-147 | Over a walk with changes in between, a bridge that stays and keeps matching is listed exactly once |
| BridgeCatalog.UnchangedBridgesListed | internal/bridges/catalog_records.go:90-147 | Over an unchanged catalog the pages are exactly the matching bridges, in order |
| JobCatalog.ListCatalog | internal/automation/list_resource_catalog.go:17-77 | Refused exactly for a limit out of range, an unknown scope or source, a workspace with the global scope, or a cursor that is not of this query; otherwise the page of the matching effective definitions, with overrides applied, whatever the order of the map |
| JobCatalog.CollectCandidates | internal/automation/list_resource_catalog.go:34-49 | Every matching definition once, in some order |
| JobCatalog.PageIndependentOfMapOrder | internal/automation/list_resource_catalog.go:168-196 | The page is the same for every order in which the map is walked |
| JobCatalog.IssuedCursorIsUsable | internal/automation/list_resource_catalog.go:66-75 | The cursor a page hands out is accepted with the next request |
| JobCatalog.StableDefinitionListedOnce | internal/automation/list_resource_catalog.go:17-77 | A definition that stays and keeps matching throughout a walk is listed exactly once |
| JobCatalog.UnchangedCatalogListsAll | internal/automation/list_resource_catalog.go:17-77 | Over an unchanged catalog the pages list every matching definition once, ascending |
| DetailsBlocks.MatchingEnd | extensions/dev-cycle/coderabbit_nitpicks.go:298-325 | The least end of a closing tag at which the tags since the start balance, or -1 when there is none |
| DetailsBlocks.Index | extensions/dev-cycle/coderabbit_nitpicks.go:302-309 | The first occurrence of a tag at or after a position, or -1 |
| DetailsBlocks.MatchEncloses | extensions/dev-cycle/coderabbit_nitpicks.go:298-325 | Between an opening tag and its match the depth stays positive |
| DetailsBlocks.ExtractTopLevel | extensions/dev-cycle/coderabbit_nitpicks.go:278-296 | Each block starts at the first opening tag after the one before and ends at its match; the list stops where no tag follows or the first one is not closed |
| DetailsBlocks.ExtractionUnique | extensions/dev-cycle/coderabbit_nitpicks.go:278-296 | The text determines the extracted blocks |
| DetailsBlocks.BlocksInOrder | extensions/dev-cycle/coderabbit_nitpicks.go:278-296 | Blocks increase and do not overlap |
| DetailsBlocks.WeaveRebuilds | extensions/dev-cycle/coderabbit_nitpicks.go:348-365 | Gaps and blocks interleaved rebuild the text |
| DetailsBlocks.StripTopLevel | extensions/dev-cycle/coderabbit_nitpicks.go:348-365 | The gaps in order, trimmed outside |
| DetailsBlocks.StrippedUnique | extensions/dev-cycle/coderabbit_nitpicks.go:348-365 | The text determines its stripped form |
| DetailsBlocks.RoundTrip | extensions/dev-cycle/coderabbit_nitpicks.go:278-365 | For the rendering of any well-nested document, extraction gives its top-level blocks and stripping its top-level text |
| DetailsBlocks.BalancedTexts | extensions/dev-cycle/coderabbit_nitpicks.go:278-365 | Exactly the balanced texts are such renderings, so this covers every balanced text |
| DetailsBlocks.StrippedHoldsTagIff | extensions/dev-cycle/coderabbit_nitpicks.go:348-365 | For every text the stripped form holds a tag if and only if the text is not balanced, or some tag is cut in two parts of which the text outside the blocks ends with the first before a block and goes on with the second behind it |
| DetailsBlocks.GapsTagFreeIffBalanced | extensions/dev-cycle/coderabbit_nitpicks.go:278-365 | The text between the extracted blocks is free of tags exactly in balanced texts |
| DetailsBlocks.StrippedMayHoldATag | extensions/dev-cycle/coderabbit_nitpicks.go:348-365 | A balanced text whose stripped form is an opening tag |
| TriggerResources.ResourceStore.Put | internal/resources/kernel_raw.go:70-118 | Stores under a free id with version 0, or over the version seen; anything else changes nothing |
| TriggerResources.ResourceStore.Delete | internal/resources/kernel_raw.go:174-217 | Removes exactly the version seen |
| TriggerResources.Vault.PutSecret | internal/vault/service.go:70-113 | Stores a value under a vault ref; can fail in the read-back with the value stored |
| TriggerResources.Vault.DeleteSecret | internal/vault/service.go:188-194 | Removes a ref, or says that it was not there |
| TriggerResources.RestoreStates | internal/automation/resource_projection_rollback.go:81-111 | The first state of every ref is put back; which results are errors |
| TriggerResources.RestoreAllPutsBack | internal/automation/resource_projection_rollback.go:60-111 | Restoring captured states undoes every change at their refs, up to trimming |
| TriggerResources.PutBackSame | internal/automation/resource_projection_rollback.go:60-79 | Capturing and restoring leaves the vault alone exactly when the captured values are trimmed and not blank |
| TriggerResources.Manager.CaptureSecret | internal/automation/resource_projection_rollback.go:60-79 | What is captured for a definition, and when the capture fails |
| TriggerResources.Manager.ApplySecretWrite | internal/automation/manager_webhook_secrets.go:100-130 | When a secret write is refused, and the vault after it succeeds or fails |
| TriggerResources.Manager.DropOwnedSecret | internal/automation/manager_webhook_secrets.go:142-154 | Only the secret a trigger owns is deleted |
| TriggerResources.Manager.CreateTrigger | internal/automation/resource_projection_triggers.go:13-72 | Both stores after success and after a failure at each step; success without faults exactly for an allowed definition under a free id; it fails at the secret write exactly when that is refused or fails |
| TriggerResources.Manager.UpdateTrigger | internal/automation/resource_projection_triggers.go:74-135 | The same for an update, including the superseded secret; a rollback error is reported exactly for a captured env ref |
| TriggerResources.Manager.DeleteTrigger | internal/automation/resource_projection_triggers.go:187-251 | The same for a delete and its recreated record |
| TriggerResources.CreateFailureLeavesNoTrace | internal/automation/resource_projection_triggers.go:13-72 | With working compensation, exactly when a failed create leaves specs, scopes and secrets as before |
| TriggerResources.FailedCreateOverwrites | internal/automation/resource_projection_triggers.go:13-72 | A create that fails in the read-back of its secret write has replaced another secret |
| TriggerResources.UpdateFailureLeavesNoTrace | internal/automation/resource_projection_triggers.go:74-154 | The same for a failed update; a failed final lookup comes after the commit |
| TriggerResources.DeleteFailureLeavesNoTrace | internal/automation/resource_projection_triggers.go:187-251 | The same for a failed delete |
| Definitions.SameMapIsEquality | internal/automation/manager_helpers.go:120-130 | Maps found the same are equal exactly when the right has the keys of the left, and always when the left has no empty value |
| Definitions.SameMapNotSymmetric | internal/automation/manager_helpers.go:120-130 | Two different maps found the same in one direction only |
| Definitions.SameJobIsSameMeaning | internal/automation/manager_helpers.go:68-85 | Jobs that say the same compare the same; without empty mapping values in the loop target only those do |
| Definitions.SameTriggerIsSameMeaning | internal/automation/manager_helpers.go:87-107 | The same for triggers, whose filters have no empty value |
| ManagedSync.SyncResources | internal/automation/resource_sync.go:57-194 | Without faults it succeeds exactly when every definition is accepted, ids are distinct and none belongs to another source; success leaves exactly the wanted ids under the source, each saying what is wanted; other sources are untouched, also on failure; owned secrets of removed triggers are gone; in-sync stores are not written |
| ManagedSync.PutAll | internal/automation/resource_sync.go:77-109 | The put loop settles every wanted definition, refuses an id wanted twice, and leaves the unclaimed records; without faults it succeeds exactly for such a list |
| ManagedSync.RemoveAll | internal/automation/resource_sync.go:111-118 | The delete loop removes exactly the stale records, in any order, with the secrets they own, and fails only when a write does |
| ManagedSync.ResourceStore.Put | internal/resources/kernel_raw.go:70-118 | Stores under a free id with version 0, or over the version seen when the source is the same; anything else changes nothing |
| ManagedSync.ResourceStore.Delete | internal/resources/kernel_raw.go:174-217 | Removes the version seen when the source is the same |
| ManagedSync.ResourceStore.DropSecret | internal/automation/manager_webhook_secrets.go:142-154 | Only the secret a definition owns is removed |
| ManagedSync.SyncedIsInSync | internal/automation/resource_sync.go:57-120 | After success with a normalized list nothing is left to do |
| ManagedSync.SyncTwice | internal/automation/resource_sync.go:57-120 | A second sync of a normalized list right after a successful one writes nothing |
| ManagedSync.SyncedJobsMeanWanted | internal/automation/resource_sync.go:57-120 | After success each stored job says what the wanted one says |
| ManagedSync.SyncedTriggersMeanWanted | internal/automation/resource_sync.go:122-194 | The same for triggers |
| ManagedSync.SyncDefinitions | internal/automation/manager_definition_sync.go:79-180 | The plain store after success; without faults it succeeds exactly when every definition is valid or compares the same as the listed one and an id that is not listed is free and wanted once; what was not listed stays, also on failure |
| ManagedSync.UpsertAll | internal/automation/manager_definition_sync.go:90-111 | The loop writes exactly the definitions that are not listed or compare differently with the listing; when it succeeds |
| ManagedSync.DefinitionStore.Create | internal/store/globaldb/global_db_automation_definitions.go:14-37 | Stores a valid definition under a free id only |
| ManagedSync.DefinitionStore.Update | internal/store/globaldb/global_db_automation_definitions.go:40-80 | Replaces a stored definition by a valid one |
| ManagedSync.PlainSyncHoldsAll | internal/automation/manager_definition_sync.go:79-125 | A successful plain sync holds every wanted definition exactly when definitions wanted under one id compare the same |
| ManagedSync.PlainSyncOfJobs | internal/automation/manager_definition_sync.go:79-125 | The same for jobs and the comparison the code uses |
| ManagedSync.ContradictingListNotMet | internal/automation/manager_definition_sync.go:79-125 | A list that is taken and not met |
| Suggestions.Manager.AcceptSuggestion | internal/automation/manager_suggestion.go:42-83 | Every durable state on the way is one a recovery can complete; success leaves the suggestion accepted with its job; a failure whose lookup and rollback work leaves the job present or everything as before |
| Suggestions.Manager.CreatePreparedJob | internal/automation/resource_projection_jobs.go:36-58 | It succeeds exactly without a fault and with a free id; the job stays exactly when it was stored and not taken back after a failed load |
| Suggestions.Manager.CreateAccepted | internal/automation/manager_suggestion.go:164-193 | A creation that leaves no job takes the acceptance back |
| Suggestions.Manager.ResolveSuggestion | internal/store/globaldb/global_db_automation_suggestions.go:152-212 | Only a pending suggestion is resolved, in one write |
| Suggestions.Manager.RollbackAcceptance | internal/store/globaldb/global_db_automation_suggestions.go:214-245 | Only the very acceptance is undone |
| Suggestions.Manager.PutJob | internal/automation/suggestion_recovery.go:40-58 | Stores a job under a free id only |
| Suggestions.Manager.DismissSuggestion | internal/automation/manager_suggestion.go:86-106 | Only a pending suggestion is dismissed, and no job changes |
| Suggestions.Manager.RecoverAccepted | internal/automation/suggestion_recovery.go:11-38 | Without faults it succeeds exactly when every accepted suggestion is valid and its job missing or right; then every job is there; only missing jobs are added; with all jobs present it writes nothing |
| Suggestions.AcceptKeepsRecoverable | internal/automation/manager_suggestion.go:42-83 | A crash anywhere in an accept leaves a state that can be recovered, exactly unless it stored a job the store does not keep as it compares |
| Suggestions.RecoveryCompletes | internal/automation/suggestion_recovery.go:11-58 | After a recovery everything is in place exactly when the jobs it had to create are kept as they compare |
| Suggestions.RunStaysRecoverable | internal/automation/suggestion_recovery.go:11-58 | In every run of accepts, dismissals and recoveries cut short anywhere and of any edits, all states can be recovered if and only if no edit makes the job of an accepted suggestion say something else |
| Suggestions.EditedJobStopsRecovery | internal/automation/suggestion_recovery.go:11-58 | Changing the prompt of such a job makes a complete state unrecoverable |
| TriggerFilter.LookupPath | internal/automation/trigger_filter.go:125-157 | The loop follows exactly the dot-separated, trimmed segments of the path through nested maps |
| TriggerFilter.SplitUnique | internal/automation/trigger_filter.go:125-157 | A path has one division into dot-free segments |
| TriggerFilter.EntryMatches | internal/automation/trigger_filter.go:99-123 | An entry matches exactly when the envelope has the wanted text at its field |
| TriggerFilter.ExactMatch | internal/automation/trigger_filter.go:17-25 | In any order of the map: true exactly when every path can be read and has its wanted text |
| TriggerFilter.Compile | internal/automation/trigger_filter.go:56-68 | One entry for every path that can be read |
| TriggerFilter.CompiledMatch | internal/automation/trigger_filter.go:31-38 | True exactly when every entry holds |
| TriggerFilter.AllCompileIffSameSize | internal/automation/trigger_registration.go:42-45 | The compiled filter has as many entries as the filter exactly when every path can be read |
| TriggerFilter.CompiledAgrees | internal/automation/trigger_filter.go:31-38 | It then answers as the interpreted filter, for every order of compilation |
| TriggerFilter.RegistrationMatches | internal/automation/trigger_registration.go:25-46 | A match exactly when the header fields match and the interpreted filter holds, also when some paths cannot be read |
| TriggerFilter.Normalize | internal/automation/trigger_registration.go:5-23 | A registration is accepted exactly when its filter and the other checks are valid, and then compiles completely |
| TriggerFilter.ValidDataPath | internal/automation/model/validate.go:430-442 | A data path is valid exactly when none of its segments is blank |
| TriggerFilter.IsValidFilter | internal/automation/model/validate.go:402-417 | A filter is accepted exactly when every path is a header field or a data path without blank segments, and no value is blank |
| TriggerFilter.ValidPathCompiles | internal/automation/trigger_filter.go:70-97 | A valid path can be read |

## Left out

- Files, symlinks, Markdown front matter and the names of task files: `TaskImport.ImportTasks` takes the matched files, the id of a file and the loaded tasks as given.
- TaskImport.ValidateEdges: the text key under which repeated edges are found is taken to be injective; ids that hold its separator are not modelled.
- Cron expressions and time zones: a cron schedule is a set of instants at least one second apart with its next function; the duration of a time difference is not saturated.
- Hashes behind fire ids, run ids, stable ids and query fingerprints are taken to be injective.
- The scheduler without a durable store, its timers, and progress after a refused claim.
- A store call that fails is taken to have written nothing, except for the secret write; a commit whose outcome is unknown is not modelled.
- TriggerResources.ResourceStore.Put: the actor of a call is taken to own the record, the spec is stored as given without the trimming of the codec, and the read-back of a stored record does not fail.
- TriggerResources.Manager.UpdateTrigger: the fields a trigger has besides source, scope, event kind, webhook id and secret ref are one opaque value, and the validation of a definition is a parameter.
- FireLimit.FireLimitBound: runs created with a reservation are other rows that may change at any step; they count in the evaluation but not in the bound.
- DispatchAttempt.Dispatch: validation of the request, logging, lifecycle hooks, other dispatches that take or give back gate slots between its attempts, and base delays that do not parse.
- DispatchAttempt.Dispatcher.Attempt: loop targets, prompt rendering, hook payloads and the actor registry; the fire limit evaluation is an answer, as it has its own module.
- PromptStream.ActivePrompt.EmitPromptEvent: blocking of the event channel and the other state of the agent process; ids are trimmed beforehand.
- TerminalWindow.Terminal.AppendOutput: the process behind the terminal, its locks and its exit status.
- BridgeCatalog.BuildPage: the fields of a record are trimmed beforehand, lower-casing is that of ASCII letters, and the encoding of a cursor with its size limit is a decoded value.
- JobCatalog.ListCatalog: the match of a definition with a query is a parameter, names and search text are normalized beforehand, and the overrides are read without failure.
- DetailsBlocks.ExtractTopLevel: the summary and the body inside a block are not taken apart.
- ManagedSync.SyncDefinitions: the vault secrets that the plain sync of triggers deletes.
- ManagedSync.SyncResources: reconciliation requests after the sync, and the sorting of the desired list beforehand.
- SchedulerCursor.UnsafeReconcileLowers: a cursor that is stored but has ended.
- SchedulerCursor.CursorNeverDecreases: store faults between a save and its read-back, after which memory points behind the store; a run row missing for the last fire of a cursor, which the claim writes together.
- SchedulerRuns.HandedAtMostOnce: the plan and the reconciliation of one registry operation read the clock once each; one reading stands for both.
- SchedulerRuntime.Runtime.ExecuteScheduledJob: the recording of other dispatch errors on the run, and shutting the scheduler down.
- Suggestions.Manager.AcceptSuggestion: the time stamps of the prepared job, which validation and comparison ignore, the event recorded for a transition, workspace resolution, and the job table used when definitions are not resources.
- TriggerFilter.LookupPath: how values are shown as text is part of the value.
- The delivery broker, the webhook claim, HMAC checks, process launching, transport, git and web calls, prompt metadata, templates, code generation and web configuration.
