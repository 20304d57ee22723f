# tiangong orchestration core in Dafny

tiangong runs a software project as an event-sourced team. Every action goes
into an append-only log of JSON events, such as runs started, verdicts and
halts. Each event is stamped with a sequence number, a UUIDv7-style id and a
CRC-32 over its canonical JSON, and is deduplicated by its idempotency key.

The **reducer** replays the log into a project status. The status holds:
- the project's phase and mode;
- the watchdog's health;
- each task's state, gates and current run;
- the open runs and the locks derived from them;
- progress counts.

The **orchestrator** reads the events or the status and appends follow-up
events. It:
- enforces BLOCK verdicts;
- reports an unresponsive watchdog;
- dispatches pending tasks;
- times out and retries workers;
- reconciles open runs after a restart;
- refuses messages from runs that do not hold a task's lock.

The **watchdog** audits evidence submissions into a PASS, WARN or BLOCK
verdict. The **skill registry and router** propose a skill for a task and
build the prompt that asks the user to confirm it.

The model has one module per concern:

| module | file | models |
|---|---|---|
| `Json`, `Text`, `Hex`, `Sorting`, `OrderedMap`, `Wrappers` | json.dfy, text.dfy, hex.dfy, sorting.dfy, ordered_map.dfy, wrappers.dfy | Python dicts in insertion order, `json.dumps(sort_keys=True, separators=(",", ":"), ensure_ascii=False)`, `str(n)`, hex formatting, stable key sort, ordered dicts |
| `Crc32` | crc32.dfy | the reflected CRC-32 of `zlib.crc32` and its `%08X` formatting |
| `Protocol` | protocol.dfy | the event types, the event record, `canonical_json`, `compute_crc32`, `verify_crc32` |
| `StateManager` | state_manager.dfy | `append_event` on an `EventLog` class with its key index and sequence counter; `build_corrupted_event_payload` |
| `Reducer`, `ReducerProperties` | reducer.dfy, reducer_properties.dfy | `apply_gate`, `recompute_state`, `reduce_events` |
| `Policies`, `PolicyProperties`, `Orchestrator` | policies.dfy, policies_properties.dfy, orchestrator.dfy | the orchestrator's policies. Each is a function giving the events it appends, plus an `Orchestrator` class whose methods are proved to append exactly those events |
| `Watchdog` | watchdog.dfy | `_check_path_safety`, `_check_deny_commands`, `verify_evidence` (corrected reading, see ## Findings) |
| `SkillRegistry`, `SkillRouter` | skill_registry.dfy, skill_router.dfy | `from_dict`, `load`, `by_kind`, `get`, `suggest`, `build_prompt` |
| `Ids` | ids.dfy | `uuid_v7` and `run_id` |
| `AsWritten` | as_written.dfy | five source defects, modelled as the source spells them (see Findings) |

Imperative code keeps its form.
- The event log and the orchestrator are classes whose methods update their state.
- Every loop of the source that updates state is a `while` loop, proved against a specification function.
- The reducer's inner `for spec in specs` only rebuilds the task table, so it is the recursive function `Reducer.PublishSpecs`.

The clock, random bits and event-id generation are parameters. So are the
SHA-256 digests and `Path.resolve`. Time is a whole number of seconds, or of
milliseconds for `uuid_v7`.

## Model

| member | source | states |
|---|---|---|
| Crc32.CheckValue | tiangong/core/protocol.py:19 | The CRC-32 of the ASCII bytes "123456789" is CBF43926, the check value of the zlib polynomial, preset and final XOR |
| Crc32.FormatRoundTrip | tiangong/core/protocol.py:20 | Reading the eight hex digits of `f"{crc:08X}"` back gives the checksum |
| Crc32.FormatInjective | tiangong/core/protocol.py:20 | Different checksums format differently |
| Crc32.Format | tiangong/core/protocol.py:20 | The formatted checksum is eight upper-case hex digits |
| Json.PutFrontIdempotent | tiangong/core/protocol.py:10 | `{k: w, **{k: v, **d}}` keeps the value already in front |
| Json.RenderIgnoresInsertionOrder | tiangong/core/protocol.py:11 | With `sort_keys=True`, two dicts holding the same entries in different insertion orders render identically |
| Json.Utf8Ascii | tiangong/core/protocol.py:15 | An ASCII string encodes to one UTF-8 byte per character, its code |
| Protocol.ComputeCrc32 | tiangong/core/protocol.py:18-20 | The stamp is eight characters |
| Protocol.VerifyCrc32 | tiangong/core/protocol.py:23-30 | A missing or empty stamp never verifies |
| Protocol.CrcIgnoresStamp | tiangong/core/protocol.py:9-11 | The checksum does not depend on the current `crc32` value, because canonical JSON blanks it |
| Protocol.CrcIgnoresInsertionOrder | tiangong/core/protocol.py:9-20 | Dicts with the same entries in different insertion orders get the same checksum |
| Protocol.StampVerifies | tiangong/core/protocol.py:18-30 | A dict stamped with its own checksum verifies |
| Protocol.WrongStampFails | tiangong/core/protocol.py:23-30 | A stamp that differs from the checksum of the rest does not verify |
| Protocol.EventStampVerifies | tiangong/core/protocol.py:23-30 | An event verifies exactly when its stamp is its own checksum |
| Protocol.BodyLacksCrc | tiangong/core/protocol.py:191-206 | The event's fields other than the stamp contain no `crc32` key |
| StateManager.Stamp | tiangong/core/state_manager.py:196-202 | Append fills in the defaults: `eventId`, `schemaVersion` 1, the sequence number and `at`, each only when absent. The `crc32` stamp is the checksum of the rest. Nothing else changes |
| StateManager.StampVerifies | tiangong/core/state_manager.py:196-202 | A stamped event passes `verify_crc32` |
| StateManager.EventLog.constructor | tiangong/core/state_manager.py:111-120 | A new log is empty, with last sequence 0, and stamps with the real checksum |
| StateManager.EventLog.Append | tiangong/core/state_manager.py:182-214 | The new log and the result are those of `AppendSpec`: a missing key is rejected, a known key is deduplicated, and anything else is stamped with last + 1, written and indexed |
| StateManager.NextKeys | tiangong/core/state_manager.py:211 | A keyed append adds its key, and only it, to the index |
| StateManager.AppendKeepsConsistent | tiangong/core/state_manager.py:190-213 | Appending keeps the log invariant: every event keyed and indexed, keys distinct, numbers within 1..last |
| StateManager.AppendKeepsVerified | tiangong/core/state_manager.py:202 | With the real checksum, every stored event keeps verifying |
| StateManager.FreshAppend | tiangong/core/state_manager.py:195-214 | A fresh key takes number last + 1, is indexed under it above every earlier number, and its event goes last in the log |
| StateManager.KnownKeyDeduped | tiangong/core/state_manager.py:192-193 | An indexed key leaves the log unchanged and answers "deduped" |
| StateManager.AppendAllIndexes | tiangong/core/state_manager.py:190-213 | After a batch, every key in it is indexed, and no key is dropped |
| StateManager.AppendAllKnown | tiangong/core/state_manager.py:192-193 | A batch whose keys are all indexed changes nothing |
| StateManager.AppendAllIdempotent | tiangong/core/state_manager.py:182-214 | Replaying a keyed batch appends nothing the second time, whatever the clock |
| StateManager.AppendAllConcat | tiangong/core/state_manager.py:182-214 | Appending a batch in two parts equals appending it at once |
| StateManager.AppendAllKeepsConsistent | tiangong/core/state_manager.py:182-214 | Any batch keeps the log invariant |
| StateManager.CorruptedEvents | tiangong/core/state_manager.py:249-273 | CORRUPTED_LINE_DETECTED and RECOVERY_STARTED carry the same payload, each with its own key built from project, offset and hash |
| StateManager.CorruptedLineReportedOnce | tiangong/core/state_manager.py:249-273 | Both events of a line are logged the first time, and reporting the line again logs nothing |
| Reducer.SortedGates | tiangong/core/reducer.py:352 | The output gates are exactly the held gates' names, in strictly increasing string order |
| Reducer.ApplyGate | tiangong/core/reducer.py:86-90 | Adds or removes one gate and changes nothing else |
| Reducer.ReduceEvents | tiangong/core/reducer.py:144-367 | The result is `ReduceChecked`: the status `Reduce` gives (sort, replay, escalate, derive locks, list tasks), or the exception the replay raises |
| Reducer.ReplayAll | tiangong/core/reducer.py:157-310 | The replay loop returns the checked fold over the sorted events: the accumulated state, or the first exception |
| Reducer.FoldChecked | tiangong/core/reducer.py:157-310 | When the replay returns, its state is that of the unchecked fold |
| Reducer.ReduceChecked | tiangong/core/reducer.py:144-367 | When the reducer returns, its status is `Reduce` of the events |
| Reducer.SpecsError | tiangong/core/reducer.py:231-232 | The spec list raises exactly when some spec does, and then with that spec's exception |
| Reducer.FoldCheckedSticks | tiangong/core/reducer.py:157-310 | Once the replay has raised, later events do not change the outcome |
| ReducerProperties.FoldCheckedReturns | tiangong/core/reducer.py:157-310 | The replay returns exactly when no event raises in the state the earlier events left |
| ReducerProperties.FoldCheckedFirstError | tiangong/core/reducer.py:157-310 | A replay that raises raises the exception of the first event that does, and no earlier event raises |
| ReducerProperties.WellFormedReduces | tiangong/core/reducer.py:228-240 | If every TASKSPEC_PUBLISHED carries a falsy `tasks` or a list of dicts without a list or dict `taskId`, the reducer returns `Reduce` of the events |
| ReducerProperties.MalformedSpecRaises | tiangong/core/reducer.py:157-232 | A TASKSPEC_PUBLISHED with a task and no idempotency key makes the reducer raise when its truthy `tasks` is not a list, or holds a spec that is not a dict or has a truthy list or dict `taskId` |
| Reducer.Finish | tiangong/core/reducer.py:312-367 | The passes after replay compute `Finalize` |
| Reducer.EscalateTasks | tiangong/core/reducer.py:312-317 | The loop computes the escalation pass |
| Reducer.DeriveLocks | tiangong/core/reducer.py:322-330 | The loop computes the task locks and the multi-run reports |
| Reducer.ListTasks | tiangong/core/reducer.py:333-367 | The loop lists the tasks and counts the done and blocked ones |
| Reducer.MultiAlerts | tiangong/core/reducer.py:329 | One `multiple_open_runs` alert, with the task and its runs, per reported entry, in order |
| Reducer.EnsureTask | tiangong/core/reducer.py:152-155 | `get_task` adds the task if missing and keeps every existing entry |
| Reducer.Drop | tiangong/core/reducer.py:308 | The remaining runs are exactly those other than the closed one |
| ReducerProperties.StepRemembersKey | tiangong/core/reducer.py:157-164 | A replayed event's truthy key is remembered, and no key is forgotten |
| ReducerProperties.FoldRemembersKeys | tiangong/core/reducer.py:157-164 | After replay, every truthy key of the log is remembered |
| ReducerProperties.LaterDuplicateIgnored | tiangong/core/reducer.py:160-163 | An event whose key an earlier event carried changes nothing |
| ReducerProperties.KeyLessIsStrictTotalOrder | tiangong/core/reducer.py:144 | The (sequenceNumber, eventId) order is a strict total order |
| ReducerProperties.SortEventsOrders | tiangong/core/reducer.py:144 | The replay order is a permutation of the log, sorted by (sequenceNumber, eventId) |
| ReducerProperties.ReduceOrderIndependent | tiangong/core/reducer.py:142-144 | Two logs with the same events and distinct sort keys reduce to the same status |
| ReducerProperties.RecomputeIdempotent | tiangong/core/reducer.py:93-108 | Recomputing the state twice is recomputing it once |
| ReducerProperties.RecomputePriority | tiangong/core/reducer.py:93-108 | BLOCK or failure gives blocked, else abort gives canceled, else completed with PASS gives done. Each clears the gates, and done carries a quality. Otherwise nothing changes |
| ReducerProperties.MismatchIgnored | tiangong/core/reducer.py:217-227 | An event for a run other than the task's current one leaves tasks, open runs and alerts unchanged |
| ReducerProperties.IntentOpensRun | tiangong/core/reducer.py:251-259 | WORKER_RUN_INTENT assigns the task to the run and appends it to the open runs. A different run starts with a clean record. Other tasks' open runs are unchanged |
| ReducerProperties.RunClosedDropsRun | tiangong/core/reducer.py:305-310 | RUN_CLOSED removes exactly that run, removes the task once it has no runs left, and leaves other tasks alone |
| ReducerProperties.ProjectEvents | tiangong/core/reducer.py:174-207 | The phase, halt, lock, mode, degraded reason and watchdog effect of each project-level event type |
| ReducerProperties.HaltIdlesProjectLock | tiangong/core/reducer.py:183-186 | A final PROJECT_HALTED makes the project lock idle and the phase halted |
| ReducerProperties.ResumeRunsProjectLock | tiangong/core/reducer.py:187-190 | A final PROJECT_RESUMED makes the project lock running and the phase running |
| ReducerProperties.TaskLocksSpec | tiangong/core/reducer.py:322-330 | Every lock is a task with exactly one open run, on that run, and every such task is locked. The reported tasks are exactly those with some other number of open runs |
| ReducerProperties.RunEntriesSpec | tiangong/core/reducer.py:323 | `open_runs.items()` lists exactly the table's entries |
| ReducerProperties.TableLocks | tiangong/core/reducer.py:322-330 | The locks and multi-run alerts, stated over the open-runs table. An alert is raised exactly when some task has several runs |
| ReducerProperties.FinalizeLocks | tiangong/core/reducer.py:320-330 | Tasks with one open run hold the lock. Several runs degrade the project with `multiple_open_runs` and raise an alert. Otherwise mode and alerts are unchanged |
| ReducerProperties.OutputsList | tiangong/core/reducer.py:336-360 | The listing keeps task order and ids, and a task is listed as done exactly when its state is done |
| ReducerProperties.EscalateKeeps | tiangong/core/reducer.py:312-317 | Escalation keeps states and ids and only adds `needs_human_review`, to the undecided tasks awaiting a verdict |
| ReducerProperties.CountsReported | tiangong/core/reducer.py:334-348 | The done and blocked counts equal the tasks listed as done and blocked |
| ReducerProperties.FinalizeProgress | tiangong/core/reducer.py:363-367 | Total is the number of tasks, and done and blocked count the listing |
| Policies.Keep | tiangong/core/orchestrator.py:67-75 | An optional field is written exactly when it is truthy |
| Policies.BuildEvent | tiangong/core/orchestrator.py:58-76 | The event has the type, key, payload, actor "orchestrator" and project given. Its task id, run id, causation id and session label are the given ones when truthy and absent otherwise. Its correlation id equals the run id, and it has no stamped fields |
| Policies.Window | tiangong/core/orchestrator.py:193 | The window is the floor of now over a nonzero timeout, of either sign, as Python's `//` gives |
| Policies.Latest | tiangong/core/orchestrator.py:95-112 | A running maximum of the timestamps seen |
| Policies.DispatchPlan | tiangong/core/orchestrator.py:224-269 | Two events per ready task |
| Policies.FirstStartSettled | tiangong/core/orchestrator.py:384-390 | Once a timed start is found, later events do not change it |
| Policies.TimeoutPlan | tiangong/core/orchestrator.py:399-418 | Two events per timed-out run |
| Policies.RetryPlan | tiangong/core/orchestrator.py:434-474 | Two events per retryable task |
| Policies.RetriesOff | tiangong/core/orchestrator.py:428-429 | With a limit of zero or less no task is retryable, so the retry plan is empty |
| Policies.FindRun | tiangong/core/orchestrator.py:497-515 | Finds the `run_info` entry with the given (taskId, runId), or proves there is none |
| Policies.FirstTruthy | tiangong/core/orchestrator.py:567 | `a or b or c or d`: truthy exactly when one id is, and then one of them |
| Policies.LockOf | tiangong/core/orchestrator.py:611 | A found lock is an entry of the lock table |
| PolicyProperties.IndexTimes | tiangong/core/orchestrator.py:95-112 | Each last-time field of the index is the `LastOf` its event type |
| PolicyProperties.LastOfIsLatest | tiangong/core/orchestrator.py:95-112 | Present exactly when a timed event of the type exists. It is one of their times, and no earlier than any of them |
| PolicyProperties.IndexAborted | tiangong/core/orchestrator.py:97-98 | A run is in the aborted set exactly when an abort of it is logged |
| PolicyProperties.IndexClosed | tiangong/core/orchestrator.py:99-100 | A run is in the closed set exactly when a close of it is logged |
| PolicyProperties.IndexHalted | tiangong/core/orchestrator.py:91-94 | A verdict id is indexed exactly when a halt cites it by causation or payload |
| PolicyProperties.BlockPlanKeyed | tiangong/core/orchestrator.py:136-167 | Every planned enforcement event carries a key |
| PolicyProperties.BlockPlanSpec | tiangong/core/orchestrator.py:122-167 | The plan is exactly the halt, abort and close of each enforceable BLOCK verdict, less what is already recorded |
| PolicyProperties.EnforceIdempotent | tiangong/core/orchestrator.py:122-167 | Running enforcement twice against the log appends nothing more |
| PolicyProperties.HaltRecorded | tiangong/core/orchestrator.py:91-94 | A halt citing a verdict is indexed after it is logged |
| PolicyProperties.AbortRecorded | tiangong/core/orchestrator.py:97-98 | A logged abort is indexed afterwards |
| PolicyProperties.CloseRecorded | tiangong/core/orchestrator.py:99-100 | A logged close is indexed afterwards |
| PolicyProperties.HaltSettles | tiangong/core/orchestrator.py:136-145 | A planned halt, once logged, is indexed |
| PolicyProperties.AbortSettles | tiangong/core/orchestrator.py:147-156 | A planned abort, once logged, is indexed |
| PolicyProperties.CloseSettles | tiangong/core/orchestrator.py:158-167 | A planned close, once logged, is indexed |
| PolicyProperties.PlannedParts | tiangong/core/orchestrator.py:136-167 | Each part of a verdict's plan missing from the index is among the planned events |
| PolicyProperties.NothingLeft | tiangong/core/orchestrator.py:136-167 | A verdict whose halt, abort and close are indexed plans nothing |
| PolicyProperties.VerdictSettles | tiangong/core/orchestrator.py:136-167 | A verdict plans nothing once its planned events are logged |
| PolicyProperties.EnforcementSettles | tiangong/core/orchestrator.py:122-167 | A second pass over the same events plans nothing once the first pass's events are logged |
| PolicyProperties.HeartbeatFires | tiangong/core/orchestrator.py:169-202 | At most one alert. It is raised exactly when the project is neither finished nor halted, a heartbeat is known, it is at least the timeout old, and the timeout is not zero. With a zero timeout the same condition raises ZeroDivisionError instead |
| PolicyProperties.NonPositiveTimeoutAlwaysDue | tiangong/core/orchestrator.py:189-193 | With a timeout of zero or less, a running project whose last heartbeat is not later than now is always due: a negative timeout alerts, a zero one raises |
| PolicyProperties.HeartbeatOncePerWindow | tiangong/core/orchestrator.py:193-202 | For any nonzero timeout, after an alert a second check in the same window appends nothing |
| PolicyProperties.UnresponsiveKeyInjective | tiangong/core/orchestrator.py:193-194 | Different windows get different alert keys |
| PolicyProperties.FilterSpec | tiangong/core/orchestrator.py:224-233 | Filtering keeps exactly the elements that pass, in order |
| PolicyProperties.CountReadyFilter | tiangong/core/orchestrator.py:269-271 | The dispatch count is the number of ready tasks |
| PolicyProperties.DispatchPlanPairs | tiangong/core/orchestrator.py:224-269 | The k-th ready task gets the intent and start of run `runs(k)`, with the spawn result. Nothing else is appended |
| PolicyProperties.DispatchedTasks | tiangong/core/orchestrator.py:229-242 | A task is dispatched exactly when it is pending without gates |
| PolicyProperties.FirstStartSpec | tiangong/core/orchestrator.py:383-390 | The start time is that of the first timed WORKER_RUN_STARTED of the run, if any |
| PolicyProperties.TimedOutSpec | tiangong/core/orchestrator.py:368-396 | A run times out exactly when it is a running task's current run and its first start lies beyond the worker timeout |
| PolicyProperties.TimeoutPlanPairs | tiangong/core/orchestrator.py:399-418 | Each timed-out run gets its failure, then its close, in list order |
| PolicyProperties.RetryableTasksSpec | tiangong/core/orchestrator.py:434-445 | Exactly the blocked tasks below the retry limit are retried, in order |
| PolicyProperties.RetryCounted | tiangong/core/orchestrator.py:453-471 | The TASK_RETRIED record names the task and the new run and counts retries + 1, which is between 1 and the limit |
| PolicyProperties.RetryPlanPairs | tiangong/core/orchestrator.py:447-474 | The k-th retried task gets the intent of run `runs(k)` and a TASK_RETRIED record |
| PolicyProperties.TrackRuns | tiangong/core/orchestrator.py:517-545 | One event keeps the runs distinct, and adds its (taskId, runId) to the tracked runs exactly when both are truthy |
| PolicyProperties.RunsOfSpec | tiangong/core/orchestrator.py:494-545 | `run_info` has exactly one entry per (taskId, runId) the events name |
| PolicyProperties.ReconcileOneKeys | tiangong/core/orchestrator.py:550-604 | Reconciling a run adds exactly its reconciliation keys to the index |
| PolicyProperties.StaleKeys | tiangong/core/orchestrator.py:583-604 | Failing and closing a stale run adds exactly its failure key and its close key |
| PolicyProperties.ReconcileAllKeys | tiangong/core/orchestrator.py:550-604 | Reconciling every run adds exactly the union of their reconciliation keys to the index |
| PolicyProperties.ReconcileSettled | tiangong/core/orchestrator.py:550-604 | A log holding every reconciliation key is left unchanged |
| PolicyProperties.ReconcileIdempotent | tiangong/core/orchestrator.py:492-604 | Reconciling twice with the same runs and clock equals reconciling once |
| PolicyProperties.LockOfFinds | tiangong/core/orchestrator.py:611 | In a table with one run per task, the lookup returns the task's run |
| PolicyProperties.LockOfLast | tiangong/core/orchestrator.py:611 | In such a table, the lookup returns the run at any entry of the task |
| PolicyProperties.AcceptedIffOnlyOpenRun | tiangong/core/orchestrator.py:606-632 | A worker or watchdog message is accepted exactly when its truthy run id is the task's one open run after replay |
| PolicyProperties.IgnoredOnce | tiangong/core/orchestrator.py:615-630 | The same rejection appended twice is logged once |
| PolicyProperties.AggregateSpec | tiangong/core/orchestrator.py:870-914 | The results are the outcomes of the listed tasks, each done or blocked. A done one carries no result, verdict, evidence or quality |
| PolicyProperties.OutcomeOfSpec | tiangong/core/orchestrator.py:883-906 | A task is reported exactly when it is done with a run id, or blocked, under its own id and state |
| Orchestrator.EventIndex | tiangong/core/orchestrator.py:78-120 | The loop computes the index |
| Orchestrator.FindStart | tiangong/core/orchestrator.py:383-390 | The loop finds the first timed start |
| Orchestrator.TimedOutRuns | tiangong/core/orchestrator.py:365-396 | The loop collects the timed-out runs |
| Orchestrator.TrackRuns | tiangong/core/orchestrator.py:494-545 | The loop builds `run_info` |
| Orchestrator.AggregateResults | tiangong/core/orchestrator.py:870-914 | The loop collects the done and blocked outcomes |
| Orchestrator.Orchestrator.constructor | tiangong/core/orchestrator.py:29-36 | The orchestrator starts with an empty, valid log |
| Orchestrator.Orchestrator.EmitAll | tiangong/core/orchestrator.py:145 | Appending a list of events appends each in turn |
| Orchestrator.Orchestrator.EnforceVerdict | tiangong/core/orchestrator.py:136-167 | Appends the halt, abort and close one verdict needs |
| Orchestrator.Orchestrator.EnforceBlockSequence | tiangong/core/orchestrator.py:122-167 | The log becomes the old log with the enforcement plan appended |
| Orchestrator.Orchestrator.EnforceNext | tiangong/core/orchestrator.py:125-167 | One event of the loop: only an enforceable BLOCK verdict appends anything, and the log stays the old log plus the plan of the events seen |
| Orchestrator.Orchestrator.WatchdogHeartbeat | tiangong/core/orchestrator.py:169-202 | For any timeout: the check raises ZeroDivisionError exactly when it is due with a zero timeout, and otherwise the log becomes the old log with the heartbeat plan appended |
| Orchestrator.Orchestrator.DispatchPendingTasks | tiangong/core/orchestrator.py:204-271 | A halted project changes nothing. Otherwise the dispatch plan is appended and the count of ready tasks is returned |
| Orchestrator.Orchestrator.DispatchAll | tiangong/core/orchestrator.py:224-271 | The task loop appends the dispatch plan and counts the ready tasks |
| Orchestrator.Orchestrator.DispatchTask | tiangong/core/orchestrator.py:225-269 | One task of the loop: a pending task without gates gets an intent and a start under the next run id, and the count grows by one |
| Orchestrator.Orchestrator.CheckWorkerTimeouts | tiangong/core/orchestrator.py:361-418 | The log becomes the old log with the timeout plan of the timed-out runs appended |
| Orchestrator.Orchestrator.AutoRetryBlocked | tiangong/core/orchestrator.py:420-476 | The retry plan is appended, and the number of retryable tasks is returned, or 0 when retries are off |
| Orchestrator.Orchestrator.RetryAll | tiangong/core/orchestrator.py:434-476 | Once retries are on, the task loop appends the retry plan and counts the retryable tasks |
| Orchestrator.Orchestrator.RetryTask | tiangong/core/orchestrator.py:435-474 | One task of the loop: a blocked task below the limit gets a retry intent and a TASK_RETRIED record, and the count grows by one |
| Orchestrator.Orchestrator.ReconcileRun | tiangong/core/orchestrator.py:550-604 | One run is reconciled: settled runs are closed, stale ones failed and closed |
| Orchestrator.Orchestrator.FailStale | tiangong/core/orchestrator.py:583-604 | A stale run gets its failure, then a close caused by the failure's id when the failure was appended |
| Orchestrator.Orchestrator.ReconcileOpenRuns | tiangong/core/orchestrator.py:492-604 | Every run of `run_info` is reconciled in turn |
| Orchestrator.Orchestrator.ValidateIncoming | tiangong/core/orchestrator.py:606-635 | No task: accepted, nothing appended. If replaying the log raises, the check raises the same exception and appends nothing. Otherwise accepted exactly as `Accepts` against the replayed lock; a refusal appends one MESSAGE_IGNORED |
| Watchdog.CheckPwd | tiangong/core/watchdog.py:77-83 | The loop step reports the working directory's issue (corrected reading, see ## Findings) |
| Watchdog.CheckFile | tiangong/core/watchdog.py:86-96 | One changed file's issue (corrected reading, see ## Findings) |
| Watchdog.CheckFiles | tiangong/core/watchdog.py:86-96 | The changed-file loop reports each file's issue, in file order (corrected reading, see ## Findings) |
| Watchdog.CheckPathSafety | tiangong/core/watchdog.py:68-98 | The issues are those of the working directory then each file. The check passes exactly when there are none (corrected reading, see ## Findings) |
| Watchdog.FileIssues | tiangong/core/watchdog.py:86-96 | At most one issue per file |
| Watchdog.FileIssuesSpec | tiangong/core/watchdog.py:86-96 | An issue is reported exactly when some file raises it |
| Watchdog.FileIssuesSound | tiangong/core/watchdog.py:86-96 | Every reported issue is the issue of some changed file |
| Watchdog.FileIssuesComplete | tiangong/core/watchdog.py:86-96 | The issue of every changed file that raises one is reported |
| Watchdog.FileIssueNone | tiangong/core/watchdog.py:86-96 | A file raises nothing exactly when it resolves inside the root |
| Watchdog.PathSafeIff | tiangong/core/watchdog.py:68-98 | No issues exactly when the workspace is safe |
| Watchdog.ComponentWithinPrefix | tiangong/core/watchdog.py:80 | Component containment implies prefix containment |
| Watchdog.EscapeReported | tiangong/core/watchdog.py:80-94 | An escape is reported with "outside repo" |
| Watchdog.FileEscapeReported | tiangong/core/watchdog.py:93-94 | An escaping file is reported with "outside repo" |
| Watchdog.CheckDenyCommands | tiangong/core/watchdog.py:100-111 | The loop collects the deny issues, and passes exactly when there are none |
| Watchdog.CheckCommand | tiangong/core/watchdog.py:107-109 | The inner loop gives one command's issues, one per deny prefix it starts with |
| Watchdog.CommandIssuesSpec | tiangong/core/watchdog.py:107-109 | One "deny command: cmd" per matching prefix, and none exactly when no prefix matches |
| Watchdog.DenyIssuesSpec | tiangong/core/watchdog.py:100-111 | No issues exactly when no command starts with a deny prefix, and each issue names such a command |
| Watchdog.EmptyDenyListAllows | tiangong/core/watchdog.py:45 | An empty deny list reports nothing |
| Watchdog.MissingAmong | tiangong/core/watchdog.py:130-134 | Reported names are dataclass field names |
| Watchdog.FindMissingFields | tiangong/core/watchdog.py:128-134 | The loop collects the missing fields (corrected reading, see ## Findings) |
| Watchdog.MissingAmongSpec | tiangong/core/watchdog.py:130-134 | A field is missing exactly when it is required and holds no value |
| Watchdog.MissingDistinct | tiangong/core/watchdog.py:130-134 | No field is reported twice |
| Watchdog.MissingFieldsSpec | tiangong/core/watchdog.py:47-49 | With the default list, every empty field is reported (corrected reading, see ## Findings) |
| Watchdog.CheckFields | tiangong/core/watchdog.py:127-156 | The missing-field reason, then the evidence and patch digest reasons, with their suggested actions and detail entries, each present exactly when its check fails |
| Watchdog.AddViolations | tiangong/core/watchdog.py:162-163 | Each issue becomes a "path_safety violation" reason |
| Watchdog.VerifyEvidence | tiangong/core/watchdog.py:113-189 | The result is the evaluation of the submission (corrected reading, see ## Findings) |
| Watchdog.RulingBlocks | tiangong/core/watchdog.py:171-176 | Any reason saying "outside repo" gives BLOCK with `halt_project`, whichever branch fires first |
| Watchdog.PassIff | tiangong/core/watchdog.py:168-170 | PASS exactly when no required field is missing, the evidence digest matches, the patch digest matches (if there is a patch), and the workspace is safe (if reported). A pass has no suggested actions and sets `check_passed` |
| Watchdog.EscapeBlocks | tiangong/core/watchdog.py:174-176 | A working directory or changed file resolving outside the root gives BLOCK, with `halt_project` as the last action |
| Watchdog.BlockNeedsWorkspaceIssue | tiangong/core/watchdog.py:171-176 | BLOCK only when there is a path-safety report with issues; no other reason says "deny command" or "outside repo" |
| Watchdog.DigestOnlyWarns | tiangong/core/watchdog.py:177-179 | A submission whose only faults are digest failures gets WARN, with `resubmit_evidence` as the last action |
| SkillRegistry.UnknownKeys | tiangong/core/skill_registry.py:52-53 | The unknown keys are exactly the keys not among the fields |
| SkillRegistry.ParseAllFailureSticks | tiangong/core/skill_registry.py:70-71 | The first entry that fails fails the load |
| SkillRegistry.Load | tiangong/core/skill_registry.py:62-74 | The loop computes `Loaded` |
| SkillRegistry.ByKind | tiangong/core/skill_registry.py:79-86 | The loop computes the supporting specs; a falsy kind gives none |
| SkillRegistry.RegisterShape | tiangong/core/skill_registry.py:69-74 | Keys in order are the non-empty names at first occurrence, each stored under its own name |
| SkillRegistry.RegisterKeys | tiangong/core/skill_registry.py:72-73 | A name is registered exactly when it is non-empty and carried by a spec |
| SkillRegistry.RegisterLast | tiangong/core/skill_registry.py:73 | A name stores its last spec |
| SkillRegistry.GetAfterRegister | tiangong/core/skill_registry.py:88-89 | Lookup gives a name's last spec |
| SkillRegistry.GetAbsent | tiangong/core/skill_registry.py:88-89 | A name no spec carries, or the empty name, is not found |
| SkillRegistry.LoadMissing | tiangong/core/skill_registry.py:63-68 | A missing or unreadable file gives an empty registry |
| SkillRegistry.LoadedShape | tiangong/core/skill_registry.py:62-74 | A successful load is keyed by name, with no empty name |
| SkillRegistry.FromDictDefaults | tiangong/core/skill_registry.py:44-54 | Missing name is "", missing kinds are []. A contract or policy that is missing or not a dict is None |
| SkillRegistry.ContractOf | tiangong/core/skill_registry.py:52 | A contract is present exactly when the value is a dict |
| SkillRegistry.PolicyOf | tiangong/core/skill_registry.py:53 | A policy is present exactly when the value is a dict |
| SkillRegistry.ContractKeywords | tiangong/core/skill_registry.py:10-14 | A contract is built exactly when every key is a field, each taking the dict's value or its default |
| SkillRegistry.PolicyKeywords | tiangong/core/skill_registry.py:18-23 | The same for the risk policy, whose tier defaults to "safe" |
| SkillRegistry.SupportingSpec | tiangong/core/skill_registry.py:83-85 | Each returned spec is registered and supports the kind |
| SkillRegistry.NamesOf | tiangong/core/skill_registry.py:39-41 | The names of a list of specs |
| SkillRegistry.SupportingInOrder | tiangong/core/skill_registry.py:83-86 | By-kind keeps registry order |
| SkillRouter.OrElse | tiangong/core/skill_router.py:44 | `a or b` is truthy exactly when one of them is |
| SkillRouter.Suggest | tiangong/core/skill_router.py:29-55 | The suggestion equals `Suggestion` and keeps the PM list as given |
| SkillRouter.PromptChoice | tiangong/core/skill_router.py:57-68 | Remembered first, else preferred, else generic; each confirm command ends with its skill |
| SkillRouter.CandidatesMembers | tiangong/core/skill_router.py:34-41 | No duplicates; a candidate exactly when the PM suggested it or the registry lists it for the kind |
| SkillRouter.CandidatesOrder | tiangong/core/skill_router.py:34-37 | The PM's suggestions come first, deduplicated, in first-mention order |
| SkillRouter.RegistryCandidates | tiangong/core/skill_router.py:39-41 | Beyond the PM list, a skill is a candidate exactly when the kind is truthy and the skill is registered for it |
| SkillRouter.PreferredChoice | tiangong/core/skill_router.py:43-46 | Remembered only with a kind; preferred is the task's own choice, else remembered, else the first candidate |
| SkillRouter.RememberedWinsPrompt | tiangong/core/skill_router.py:58-62 | A remembered skill wins the prompt over a different preference |
| SkillRouter.NothingToSuggest | tiangong/core/skill_router.py:68 | With no kind, no suggestion and no preference, the user is asked to choose |
| Ids.Timestamp | tiangong/core/ids.py:7-8 | The timestamp fits in 48 bits |
| Ids.TimestampTruncates | tiangong/core/ids.py:8 | The low 48 bits of the clock are kept and the rest are dropped |
| Ids.RandomFieldsSplit | tiangong/core/ids.py:11-13 | rand_a and rand_b together are the 74-bit random value |
| Ids.PackTimestamp | tiangong/core/ids.py:15 | The top 48 bits are the timestamp, and the value fits in 128 bits |
| Ids.PackVersion | tiangong/core/ids.py:15 | Bits 76..79 are 7 |
| Ids.PackRandA | tiangong/core/ids.py:15 | Bits 64..75 are rand_a |
| Ids.PackVariant | tiangong/core/ids.py:15 | Bits 62..63 are 0b10, and bits 0..61 are rand_b |
| Ids.ValueFields | tiangong/core/ids.py:7-15 | Each field of a generated value reads back from its own bits |
| Ids.UngroupGroup | tiangong/core/ids.py:17 | Removing the hyphens undoes the grouping |
| Ids.UuidShape | tiangong/core/ids.py:5-17 | 36 characters of lowercase hex grouped 8-4-4-4-12, with version 7 and variant 8, 9, a or b |
| Ids.UuidRoundTrip | tiangong/core/ids.py:15-17 | Dropping the hyphens and parsing the hex gives back the value |
| Ids.ValueOrdered | tiangong/core/ids.py:15 | A later millisecond gives a larger value |
| Ids.GroupOrder | tiangong/core/ids.py:17 | Grouping keeps the string order |
| Ids.UuidSortsByTime | tiangong/core/ids.py:5-17 | A later millisecond gives a string that sorts later, whatever the random bits |
| Ids.UuidTimestampDigits | tiangong/core/ids.py:15-17 | The first twelve hex digits spell the timestamp |
| Ids.UuidDistinctAcrossMilliseconds | tiangong/core/ids.py:5-17 | Different milliseconds give different identifiers |
| Ids.RunIdSplit | tiangong/core/ids.py:20-21 | A run id is the prefix, a hyphen and an identifier |
| Ids.RunIdPrefixRecoverable | tiangong/core/ids.py:20-21 | A run id determines its prefix and identifier |
| AsWritten.EnforceAsWrittenInert | tiangong/core/orchestrator.py:133 | As written, enforcement never changes the log and raises exactly when a verdict reaches the guard |
| AsWritten.EnforceAsWrittenCounterexample | tiangong/core/orchestrator.py:133 | On one BLOCK verdict the source raises, where the corrected policy appends halt, abort and close |
| AsWritten.HeartbeatAsWrittenNeverAlerts | tiangong/core/orchestrator.py:193-201 | As written, the heartbeat raises exactly when the corrected one would alert or would divide by zero, and never appends |
| AsWritten.HeartbeatAsWrittenCounterexample | tiangong/core/orchestrator.py:195-201 | A heartbeat at 0 checked at 180 |
| AsWritten.ValidateAsWrittenNeverRefuses | tiangong/core/orchestrator.py:618-631 | As written, validation raises exactly on the messages the corrected one refuses |
| AsWritten.ValidateAsWrittenCounterexample | tiangong/core/orchestrator.py:618-631 | A message from r2 while r1 holds the lock |
| AsWritten.PrefixIssuesIncluded | tiangong/core/watchdog.py:80-94 | As written, the check reports nothing the intended check does not |
| AsWritten.PrefixContainmentCounterexample | tiangong/core/watchdog.py:80 | "/repo-evil" passes as inside "/repo" |
| AsWritten.DefaultFieldsNeverMatch | tiangong/core/watchdog.py:47-49 | As written, the default list never matches a field |
| AsWritten.RequiredFieldsCounterexample | tiangong/core/watchdog.py:130-134 | Evidence without a path-safety report passes |
| AsWritten.NoReportIntendedWarns | tiangong/core/watchdog.py:130-134 | Under the intended matching, that same evidence is reported missing `path_safety` alone and gets WARN |

## Left out

- File I/O is left out: reading and writing the log, index, sequence and status files, `fsync`, the file lock, its LOCK_TIMEOUT_DETECTED security log and `read_events`. The model works on the parsed events and the log's state.
- Time, `uuid.uuid4`, `os.urandom` and `run_id_gen` are parameters. ISO time strings are whole seconds.
- SHA-256 digests and `Path.resolve` are inputs to the functions that use them.
- `_spawn_worker` and the OpenClaw client are left out; the spawn result is a parameter.
- `_get_retry_count` scans raw log lines. It is given as the parameter `retries`.
- The reducer's corrupted-line alerts and derived files (reducer.py:368-394) are left out.
- StateManager.EventLog.Append: a key that is present but `None` is merged with an absent key, so both give Rejected.
- StateManager.Stamp: an `eventId`, `schemaVersion`, `sequenceNumber` or `at` that is present as JSON `null` is treated as absent and filled in, where `setdefault` keeps the `null`.
- Reducer.EventKey: a `sequenceNumber` or `eventId` that is JSON `null` sorts as if absent, where the source's `int(None)` raises TypeError and a `None` event id cannot be compared with a string. A non-integer `sequenceNumber` is not parsed with `int()`.
- Reducer.Publish: a spec whose `taskId` is truthy but not a string, such as `7` or `true`, falls back to the event's task, where the source keys a task under that non-string value. The task table has string keys only.
- Orchestrator.AggregateResults: the notification scan at orchestrator.py:891-899 has no effect in the source, and is left out.
- Watchdog.VerifyEvidence: the deny-command screen is not part of `verify_evidence`, as in the source.
- Watchdog.VerifyEvidence: `evaluate` and `checkedAt` are left out.
- SkillRegistry.Load: a truthy `skillName` that is not a string is an error here, where the source would key the registry by it.
- SkillRegistry.Load: an element of `supportedKinds` that is not a string is compared as JSON, without Python's `1 == True`.
- SkillRouter.Suggest: the task's fields are taken already typed as strings.
- `update_skill_memory` writes `team.json`, and is left out.
- Python's `None` and `""` are merged where only truthiness is tested.

## Findings

| source | as written | input that shows it | evidently intended | confidence | as-written member | corrected member |
|---|---|---|---|---|---|---|
| tiangong/core/orchestrator.py:133 | The guard reads `run_id`, which is not bound (the module imports `run_id as run_id_gen`), so it raises NameError | A BLOCK verdict with an eventId and taskId | Test `run_id_val` | not executed | AsWritten.EnforceAsWrittenCounterexample | Orchestrator.Orchestrator.EnforceBlockSequence |
| tiangong/core/orchestrator.py:198 | `_build_event(run_id=None)` raises TypeError, so no alert is ever raised | A heartbeat at 0 checked at 180 with the default timeout | Pass `run_id_str=None` | not executed | AsWritten.HeartbeatAsWrittenCounterexample | Orchestrator.Orchestrator.WatchdogHeartbeat |
| tiangong/core/orchestrator.py:621 | `_build_event(run_id=expected)` raises TypeError instead of refusing | A worker message for t1 from r2 while r1 holds the lock | Pass `run_id_str=expected` | not executed | AsWritten.ValidateAsWrittenCounterexample | Orchestrator.Orchestrator.ValidateIncoming |
| tiangong/core/watchdog.py:80 | A string-prefix test treats a sibling directory as inside the root | pwd "/repo-evil", root "/repo" | Component containment | not executed | AsWritten.PrefixContainmentCounterexample | Watchdog.CheckPathSafety |
| tiangong/core/watchdog.py:131 | The default list is camelCase, but fields are snake_case, so nothing is ever required | Evidence with no pathSafety | Match either spelling | not executed | AsWritten.RequiredFieldsCounterexample | Watchdog.FindMissingFields |
