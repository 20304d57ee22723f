/**
 * The orchestrator's policies as functions: what each one of them appends
 * to the log, given the events it read, the status the reducer derived, the
 * current time and the configuration. The `Orchestrator` class runs them
 * against the log and is proved to append exactly these events.
 */
module Policies {
  import opened Wrappers
  import Text
  import opened Json
  import opened Protocol
  import opened StateManager
  import Reducer

  /** `OrchestratorConfig`: heartbeat timeout in seconds, worker timeout in minutes, retry limit. */
  datatype Config = Config(heartbeatTimeoutSec: int, workerTimeoutMinutes: int, maxRetries: int)

  const Defaults := Config(180, 30, 3)

  /** What the orchestrator reads from `team.json`: the project name and its own session label. */
  datatype Team = Team(project: string, sessionLabel: Option<string>)

  /** An optional field that `_build_event` writes only when it is truthy. */
  function Keep(x: Option<string>): (r: Option<string>)
    ensures Text.Truthy(r) <==> Text.Truthy(x)
    ensures r.Some? ==> r == x
  {
    if Text.Truthy(x) then x else None
  }

  /**
   * `_build_event`: an event from the orchestrator for the project; the
   * fields the log stamps are left for it to fill.
   */
  function BuildEvent(team: Team, etype: EventType, taskId: Option<string>, runId: Option<string>,
                      payload: Dict, key: string, causation: Option<string>): (r: Event)
    ensures r.etype == etype && r.idempotencyKey == Some(key) && r.payload == payload
    ensures r.actor == Some("orchestrator") && r.project == Some(team.project)
    ensures r.taskId == Keep(taskId) && r.runId == Keep(runId) && r.correlationId == r.runId
    ensures r.causationId == Keep(causation) && r.sessionLabel == Keep(team.sessionLabel)
    ensures r.eventId.None? && r.schemaVersion.None? && r.sequenceNumber.None? && r.at.None? && r.crc32.None?
  {
    Event(etype, Some("orchestrator"), Some(team.project), payload, Some(key),
          Keep(taskId), Keep(runId), Keep(runId), Keep(team.sessionLabel), Keep(causation),
          None, None, None, None, None)
  }

  /** The elements of `s` that satisfy `p`, in order. */
  function Filter<T>(s: seq<T>, p: T -> bool): (r: seq<T>)
    ensures |r| <= |s|
    decreases |s|
  {
    if s == [] then [] else Filter(s[..|s| - 1], p) + (if p(s[|s| - 1]) then [s[|s| - 1]] else [])
  }

  /** Every event of a plan carries an idempotency key. */
  ghost predicate Keyed(es: seq<Event>) {
    forall i :: 0 <= i < |es| ==> es[i].idempotencyKey.Some?
  }

  // ---- _event_index ----

  /** A (taskId, runId) pair as the events spell it, either part possibly missing. */
  type RunRef = (Option<string>, Option<string>)

  /**
   * The result of `_event_index`: verdicts already cited by a halt, aborted
   * and closed runs, and the latest timestamp of each lifecycle type.
   */
  datatype Index = Index(
    haltedByVerdict: set<Json>,
    aborted: set<RunRef>,
    closed: set<RunRef>,
    lastHeartbeat: Option<int>,
    lastStarted: Option<int>,
    lastResumed: Option<int>,
    lastHalted: Option<int>,
    lastFinished: Option<int>)

  const NoIndex := Index({}, {}, {}, None, None, None, None, None)

  /** A running maximum: a timestamp replaces the one held only when it is later. */
  function Latest(last: Option<int>, ts: Option<int>): (r: Option<int>)
    ensures r.Some? <==> last.Some? || ts.Some?
    ensures r.Some? ==> r == last || r == ts
    ensures last.Some? ==> r.Some? && r.value >= last.value
    ensures ts.Some? ==> r.Some? && r.value >= ts.value
  {
    if ts.Some? && (last.None? || ts.value > last.value) then ts else last
  }

  /** The verdict a PROJECT_HALTED event answers: its causation id, or else the verdict id in its payload. */
  function HaltVerdictId(e: Event): Json {
    if Text.Truthy(e.causationId) then JStr(e.causationId.value) else Get(e.payload, "verdictEventId")
  }

  /** One iteration of the loop of `_event_index`. */
  function IndexStep(x: Index, e: Event): Index {
    var t := e.etype;
    if t == ProjectHalted then
      var v := HaltVerdictId(e);
      x.(haltedByVerdict := if Truthy(v) then x.haltedByVerdict + {v} else x.haltedByVerdict,
         lastHalted := Latest(x.lastHalted, e.at))
    else if t == WorkerRunAborted then x.(aborted := x.aborted + {(e.taskId, e.runId)})
    else if t == RunClosed then x.(closed := x.closed + {(e.taskId, e.runId)})
    else if t == WatchdogHeartbeat then x.(lastHeartbeat := Latest(x.lastHeartbeat, e.at))
    else if t == ProjectStarted then x.(lastStarted := Latest(x.lastStarted, e.at))
    else if t == ProjectResumed then x.(lastResumed := Latest(x.lastResumed, e.at))
    else if t == ProjectFinished then x.(lastFinished := Latest(x.lastFinished, e.at))
    else x
  }

  function IndexOf(events: seq<Event>): Index
    decreases |events|
  {
    if events == [] then NoIndex else IndexStep(IndexOf(events[..|events| - 1]), events[|events| - 1])
  }

  /** The latest timestamp among the events of type `t`, as an independent reference. */
  function LastOf(events: seq<Event>, t: EventType): Option<int>
    decreases |events|
  {
    if events == [] then None
    else
      var e := events[|events| - 1];
      Latest(LastOf(events[..|events| - 1], t), if e.etype == t then e.at else None)
  }

  // ---- _enforce_block_sequence ----

  /** A WATCHDOG_VERDICT whose payload says BLOCK. */
  predicate BlockVerdict(e: Event) {
    e.etype == WatchdogVerdict && Get(e.payload, "verdict") == JStr("BLOCK")
  }

  /** A BLOCK verdict that names itself, its task and its run, so it can be enforced. */
  predicate Enforceable(e: Event) {
    BlockVerdict(e) && Text.Truthy(e.eventId) && Text.Truthy(e.taskId) && Text.Truthy(e.runId)
  }

  function HaltKey(team: Team, tid: string, rid: string, vid: string): string {
    team.project + ":" + tid + ":" + rid + ":PROJECT_HALTED:" + vid
  }

  function AbortKey(team: Team, tid: string, rid: string): string {
    team.project + ":" + tid + ":" + rid + ":WORKER_RUN_ABORTED"
  }

  /** The key of a RUN_CLOSED event; block enforcement and reconciliation share it. */
  function CloseKey(team: Team, tid: string, rid: string): string {
    team.project + ":" + tid + ":" + rid + ":RUN_CLOSED"
  }

  function HaltEvent(team: Team, vid: string, tid: string, rid: string): Event {
    BuildEvent(team, ProjectHalted, Some(tid), Some(rid),
               [("haltReason", JStr("blocked_by_watchdog")), ("verdictEventId", JStr(vid))],
               HaltKey(team, tid, rid, vid), Some(vid))
  }

  function AbortEvent(team: Team, vid: string, tid: string, rid: string): Event {
    BuildEvent(team, WorkerRunAborted, Some(tid), Some(rid), [("reason", JStr("blocked_by_watchdog"))],
               AbortKey(team, tid, rid), Some(vid))
  }

  function BlockCloseEvent(team: Team, vid: string, tid: string, rid: string): Event {
    BuildEvent(team, RunClosed, Some(tid), Some(rid),
               [("closeReason", JStr("blocked_by_watchdog")), ("verdictEventId", JStr(vid))],
               CloseKey(team, tid, rid), Some(vid))
  }

  /** The halt, abort and close one enforceable verdict calls for, minus those the index already holds. */
  function BlockEvents(team: Team, idx: Index, e: Event): seq<Event>
    requires Enforceable(e)
  {
    var vid, tid, rid := e.eventId.value, e.taskId.value, e.runId.value;
    (if JStr(vid) !in idx.haltedByVerdict then [HaltEvent(team, vid, tid, rid)] else [])
    + (if (e.taskId, e.runId) !in idx.aborted then [AbortEvent(team, vid, tid, rid)] else [])
    + (if (e.taskId, e.runId) !in idx.closed then [BlockCloseEvent(team, vid, tid, rid)] else [])
  }

  /** Everything `_enforce_block_sequence` appends, in order. */
  function BlockPlan(team: Team, idx: Index, events: seq<Event>): seq<Event>
    decreases |events|
  {
    if events == [] then []
    else
      var e := events[|events| - 1];
      BlockPlan(team, idx, events[..|events| - 1]) + (if Enforceable(e) then BlockEvents(team, idx, e) else [])
  }

  // ---- _watchdog_heartbeat ----

  /** Finished after its last start, or halted after its last resume. */
  predicate Stopped(idx: Index) {
    || (idx.lastFinished.Some? && (idx.lastStarted.None? || idx.lastFinished.value > idx.lastStarted.value))
    || (idx.lastHalted.Some? && (idx.lastResumed.None? || idx.lastHalted.value > idx.lastResumed.value))
  }

  /** The heartbeat check fires: the project runs, a heartbeat was seen, and none came for a whole timeout. */
  predicate HeartbeatOverdue(cfg: Config, idx: Index, now: int) {
    !Stopped(idx) && idx.lastHeartbeat.Some? && now - idx.lastHeartbeat.value >= cfg.heartbeatTimeoutSec
  }

  /**
   * The heartbeat bucket of `now`: Python's floor division, which Dafny's `/`
   * matches for a positive divisor; a negative one is floored by dividing
   * the negations.
   */
  function Window(cfg: Config, now: int): (w: int)
    requires cfg.heartbeatTimeoutSec != 0
    ensures cfg.heartbeatTimeoutSec > 0 ==> cfg.heartbeatTimeoutSec * w <= now < cfg.heartbeatTimeoutSec * (w + 1)
    ensures cfg.heartbeatTimeoutSec < 0 ==> cfg.heartbeatTimeoutSec * (w + 1) < now <= cfg.heartbeatTimeoutSec * w
  {
    var d := cfg.heartbeatTimeoutSec;
    if d > 0 then now / d else (-now) / (-d)
  }

  /** The check is due with a zero timeout: computing the window divides by zero and raises. */
  predicate HeartbeatRaises(cfg: Config, idx: Index, now: int) {
    HeartbeatOverdue(cfg, idx, now) && cfg.heartbeatTimeoutSec == 0
  }

  function UnresponsiveKey(team: Team, window: int): string {
    team.project + ":WATCHDOG_UNRESPONSIVE:" + Text.IntToString(window)
  }

  /**
   * What `_watchdog_heartbeat` appends: at most one WATCHDOG_UNRESPONSIVE,
   * keyed by the time window; nothing when it raises instead.
   */
  function HeartbeatPlan(team: Team, cfg: Config, idx: Index, now: int): (r: seq<Event>)
  {
    if HeartbeatOverdue(cfg, idx, now) && cfg.heartbeatTimeoutSec != 0 then
      [BuildEvent(team, WatchdogUnresponsive, None, None, [("lastHeartbeatAt", JInt(idx.lastHeartbeat.value))],
                  UnresponsiveKey(team, Window(cfg, now)), None)]
    else []
  }

  // ---- _dispatch_pending_tasks ----

  /** A listed task that dispatch picks: pending, with no gate. */
  predicate Ready(t: Reducer.TaskOut) {
    t.OpenOut? && t.state == Reducer.Pending && t.gates == []
  }

  function CountReady(tasks: seq<Reducer.TaskOut>): (n: nat)
    ensures n <= |tasks|
    decreases |tasks|
  {
    if tasks == [] then 0 else CountReady(tasks[..|tasks| - 1]) + (if Ready(tasks[|tasks| - 1]) then 1 else 0)
  }

  /**
   * INTENT, then STARTED, for a fresh run of a task. STARTED carries no
   * causation: `append_event` stamps a copy, so the caller's intent event
   * never receives an eventId.
   */
  function DispatchEvents(team: Team, tid: string, run: string, spawned: Json): seq<Event> {
    [BuildEvent(team, WorkerRunIntent, Some(tid), Some(run), [("reason", JStr("auto_dispatch"))],
                team.project + ":" + tid + ":" + run + ":WORKER_RUN_INTENT", None),
     BuildEvent(team, WorkerRunStarted, Some(tid), Some(run), [("mode", JStr("async")), ("spawn_result", spawned)],
                team.project + ":" + tid + ":" + run + ":WORKER_RUN_STARTED", None)]
  }

  /**
   * What dispatch appends for the listed tasks: the `n`-th task dispatched
   * gets run id `runs(n)` and its worker spawn answers `spawned(n)`.
   */
  function DispatchPlan(team: Team, tasks: seq<Reducer.TaskOut>, runs: nat -> string, spawned: nat -> Json): (r: seq<Event>)
    ensures |r| == 2 * CountReady(tasks)
    decreases |tasks|
  {
    if tasks == [] then []
    else
      var t := tasks[|tasks| - 1];
      var n := CountReady(tasks[..|tasks| - 1]);
      DispatchPlan(team, tasks[..|tasks| - 1], runs, spawned)
      + (if Ready(t) then DispatchEvents(team, t.taskId, runs(n), spawned(n)) else [])
  }

  // ---- _check_worker_timeouts ----

  /** A WORKER_RUN_STARTED of the given run that carries a timestamp. */
  predicate TimedStart(e: Event, tid: string, rid: string) {
    e.taskId == Some(tid) && e.runId == Some(rid) && e.etype == WorkerRunStarted && e.at.Some?
  }

  /** The timestamp of the first timed WORKER_RUN_STARTED of a run, in log order. */
  function FirstStart(events: seq<Event>, tid: string, rid: string): Option<int>
    decreases |events|
  {
    if events == [] then None
    else
      var f := FirstStart(events[..|events| - 1], tid, rid);
      var e := events[|events| - 1];
      if f.Some? then f
      else if TimedStart(e, tid, rid) then e.at
      else None
  }

  /** Once a prefix of the log holds a timed start, reading further changes nothing. */
  lemma {:induction false} FirstStartSettled(events: seq<Event>, i: int, tid: string, rid: string)
    requires 0 <= i <= |events| && FirstStart(events[..i], tid, rid).Some?
    ensures FirstStart(events, tid, rid) == FirstStart(events[..i], tid, rid)
    decreases |events| - i
  {
    if i < |events| {
      assert events[..i + 1][..i] == events[..i];
      FirstStartSettled(events, i + 1, tid, rid);
    } else {
      assert events[..i] == events;
    }
  }

  /** A listed task whose current run started more than the worker timeout ago. */
  predicate Overrunning(t: Reducer.TaskOut, events: seq<Event>, now: int, cfg: Config) {
    && t.OpenOut? && t.state == Reducer.Running && Text.Truthy(t.runId)
    && var start := FirstStart(events, t.taskId, t.runId.value);
    start.Some? && now - start.value > cfg.workerTimeoutMinutes * 60
  }

  /** The `timed_out` list: (taskId, runId) of every overrunning task, in list order. */
  function TimedOut(tasks: seq<Reducer.TaskOut>, events: seq<Event>, now: int, cfg: Config): seq<(string, string)>
    decreases |tasks|
  {
    if tasks == [] then []
    else
      var t := tasks[|tasks| - 1];
      TimedOut(tasks[..|tasks| - 1], events, now, cfg)
      + (if Overrunning(t, events, now, cfg) then [(t.taskId, t.runId.value)] else [])
  }

  function TimeoutEvents(team: Team, tid: string, rid: string): seq<Event> {
    [BuildEvent(team, WorkerRunFailed, Some(tid), Some(rid), [("reason", JStr("worker_timeout"))],
                team.project + ":" + tid + ":" + rid + ":WORKER_RUN_FAILED:timeout", None),
     BuildEvent(team, RunClosed, Some(tid), Some(rid), [("closeReason", JStr("worker_timeout"))],
                team.project + ":" + tid + ":" + rid + ":RUN_CLOSED:timeout", None)]
  }

  function TimeoutPlan(team: Team, pairs: seq<(string, string)>): (r: seq<Event>)
    ensures |r| == 2 * |pairs|
    decreases |pairs|
  {
    if pairs == [] then []
    else TimeoutPlan(team, pairs[..|pairs| - 1]) + TimeoutEvents(team, pairs[|pairs| - 1].0, pairs[|pairs| - 1].1)
  }

  // ---- _auto_retry_blocked ----

  /** A blocked task that has been retried fewer times than the limit; `retries` counts earlier retries. */
  predicate Retryable(t: Reducer.TaskOut, retries: string -> nat, cfg: Config) {
    t.OpenOut? && t.state == Reducer.Blocked && retries(t.taskId) < cfg.maxRetries
  }

  function CountRetryable(tasks: seq<Reducer.TaskOut>, retries: string -> nat, cfg: Config): (n: nat)
    ensures n <= |tasks|
    decreases |tasks|
  {
    if tasks == [] then 0
    else CountRetryable(tasks[..|tasks| - 1], retries, cfg) + (if Retryable(tasks[|tasks| - 1], retries, cfg) then 1 else 0)
  }

  /** With a limit of zero or less no task is retryable. */
  lemma {:induction false} RetriesOff(tasks: seq<Reducer.TaskOut>, retries: string -> nat, cfg: Config)
    requires cfg.maxRetries <= 0
    ensures CountRetryable(tasks, retries, cfg) == 0
    decreases |tasks|
  {
    if tasks != [] {
      RetriesOff(tasks[..|tasks| - 1], retries, cfg);
    }
  }

  const TaskRetried := Other("TASK_RETRIED")

  /** A new run for a blocked task and the TASK_RETRIED record with the new retry count. */
  function RetryEvents(team: Team, tid: string, previous: Option<string>, count: nat, run: string): seq<Event> {
    var next := Text.IntToString(count + 1);
    [BuildEvent(team, WorkerRunIntent, Some(tid), Some(run), [("reason", JStr("auto_retry_" + next))],
                team.project + ":" + tid + ":" + run + ":WORKER_RUN_INTENT:retry", None),
     Event(TaskRetried, Some("orchestrator"), Some(team.project),
           [("retryCount", JInt(count + 1)), ("previousRunId", OptStr(previous)), ("reason", JStr("auto_retry_after_failure"))],
           Some(team.project + ":" + tid + ":" + run + ":TASK_RETRIED:" + next),
           Some(tid), Some(run), None, None, None, None, None, None, None, None)]
  }

  /** What auto-retry appends; the `n`-th retry of the call gets run id `runs(n)`. */
  function RetryPlan(team: Team, tasks: seq<Reducer.TaskOut>, retries: string -> nat, runs: nat -> string, cfg: Config): (r: seq<Event>)
    ensures |r| == 2 * CountRetryable(tasks, retries, cfg)
    decreases |tasks|
  {
    if tasks == [] then []
    else
      var t := tasks[|tasks| - 1];
      var n := CountRetryable(tasks[..|tasks| - 1], retries, cfg);
      RetryPlan(team, tasks[..|tasks| - 1], retries, runs, cfg)
      + (if Retryable(t, retries, cfg) then RetryEvents(team, t.taskId, t.runId, retries(t.taskId), runs(n)) else [])
  }

  /** One more listed task extends the dispatch plan by that task's runs, if it is ready. */
  lemma DispatchPlanStep(team: Team, tasks: seq<Reducer.TaskOut>, i: nat, runs: nat -> string, spawned: nat -> Json)
    requires i < |tasks|
    ensures CountReady(tasks[..i + 1]) == CountReady(tasks[..i]) + (if Ready(tasks[i]) then 1 else 0)
    ensures DispatchPlan(team, tasks[..i + 1], runs, spawned) == DispatchPlan(team, tasks[..i], runs, spawned)
      + (if Ready(tasks[i]) then DispatchEvents(team, tasks[i].taskId, runs(CountReady(tasks[..i])), spawned(CountReady(tasks[..i]))) else [])
  {
    assert tasks[..i + 1][..i] == tasks[..i];
  }

  /** One more timed-out run extends the timeout plan by its failure and close. */
  lemma TimeoutPlanStep(team: Team, pairs: seq<(string, string)>, j: nat)
    requires j < |pairs|
    ensures TimeoutPlan(team, pairs[..j + 1]) == TimeoutPlan(team, pairs[..j]) + TimeoutEvents(team, pairs[j].0, pairs[j].1)
  {
    assert pairs[..j + 1][..j] == pairs[..j];
  }

  /** One more listed task extends the retry plan by its retry, if it is retryable. */
  lemma RetryPlanStep(team: Team, tasks: seq<Reducer.TaskOut>, i: nat, retries: string -> nat, runs: nat -> string, cfg: Config)
    requires i < |tasks|
    ensures CountRetryable(tasks[..i + 1], retries, cfg) == CountRetryable(tasks[..i], retries, cfg) + (if Retryable(tasks[i], retries, cfg) then 1 else 0)
    ensures RetryPlan(team, tasks[..i + 1], retries, runs, cfg) == RetryPlan(team, tasks[..i], retries, runs, cfg)
      + (if Retryable(tasks[i], retries, cfg)
         then RetryEvents(team, tasks[i].taskId, tasks[i].runId, retries(tasks[i].taskId), runs(CountRetryable(tasks[..i], retries, cfg)))
         else [])
  {
    assert tasks[..i + 1][..i] == tasks[..i];
  }

  // ---- _reconcile_open_runs ----

  /** An entry of `run_info`: what the replayed events say about one run. */
  datatype RunInfo = RunInfo(
    taskId: string,
    runId: string,
    closed: bool,
    completed: bool,
    failed: bool,
    aborted: bool,
    verdict: Json,
    intentAt: Option<int>,
    startedAt: Option<int>,
    verdictEventId: Option<string>,
    failedEventId: Option<string>,
    abortedEventId: Option<string>,
    completedEventId: Option<string>)

  function NewInfo(tid: string, rid: string): RunInfo {
    RunInfo(tid, rid, false, false, false, false, JNull, None, None, None, None, None, None)
  }

  /** The position of a run in `run_info`, which is keyed by (taskId, runId). */
  function FindRun(infos: seq<RunInfo>, tid: string, rid: string): (r: Option<nat>)
    ensures r.Some? ==> r.value < |infos| && infos[r.value].taskId == tid && infos[r.value].runId == rid
    ensures r.None? ==> forall i :: 0 <= i < |infos| ==> infos[i].taskId != tid || infos[i].runId != rid
    decreases |infos|
  {
    if infos == [] then None
    else
      var f := FindRun(infos[..|infos| - 1], tid, rid);
      if f.Some? then f
      else if infos[|infos| - 1].taskId == tid && infos[|infos| - 1].runId == rid then Some(|infos| - 1)
      else None
  }

  /** What one event tells about its run. */
  function RunUpdate(info: RunInfo, e: Event): (r: RunInfo)
    ensures r.taskId == info.taskId && r.runId == info.runId
  {
    var t := e.etype;
    if t == WorkerRunIntent then
      if e.at.Some? && info.intentAt.None? then info.(intentAt := e.at) else info
    else if t == WorkerRunStarted then
      if e.at.Some? && info.startedAt.None? then info.(startedAt := e.at) else info
    else if t == WorkerRunCompleted then info.(completed := true, completedEventId := e.eventId)
    else if t == WorkerRunFailed then info.(failed := true, failedEventId := e.eventId)
    else if t == WorkerRunAborted then info.(aborted := true, abortedEventId := e.eventId)
    else if t == WatchdogVerdict || t == HumanVerdict then
      info.(verdict := Get(e.payload, "verdict"), verdictEventId := e.eventId)
    else if t == RunClosed then info.(closed := true)
    else info
  }

  /** One iteration of the first loop: an event naming a task and a run updates that run's entry. */
  function Track(infos: seq<RunInfo>, e: Event): seq<RunInfo> {
    if !Text.Truthy(e.taskId) || !Text.Truthy(e.runId) then infos
    else
      var tid, rid := e.taskId.value, e.runId.value;
      match FindRun(infos, tid, rid)
      case Some(i) => infos[i := RunUpdate(infos[i], e)]
      case None => infos + [RunUpdate(NewInfo(tid, rid), e)]
  }

  function RunsOf(events: seq<Event>): seq<RunInfo>
    decreases |events|
  {
    if events == [] then [] else Track(RunsOf(events[..|events| - 1]), events[|events| - 1])
  }

  /** `run_info` after replaying the events in (sequenceNumber, eventId) order. */
  function Runs(events: seq<Event>): seq<RunInfo> {
    RunsOf(Reducer.SortEvents(events))
  }

  /** A run whose outcome is settled: BLOCK or failed, aborted, or completed with PASS. */
  predicate Decided(info: RunInfo) {
    info.verdict == JStr("BLOCK") || info.failed || info.aborted || (info.completed && info.verdict == JStr("PASS"))
  }

  /** Python's `a or b or c or d` over optional ids: the first truthy one. */
  function FirstTruthy(ids: seq<Option<string>>): (r: Option<string>)
    ensures Text.Truthy(r) <==> exists i :: 0 <= i < |ids| && Text.Truthy(ids[i])
    ensures Text.Truthy(r) ==> r in ids
    decreases |ids|
  {
    if ids == [] then None
    else if Text.Truthy(ids[0]) then ids[0]
    else
      var r := FirstTruthy(ids[1..]);
      assert forall i :: 1 <= i < |ids| ==> ids[i] == ids[1..][i - 1];
      r
  }

  const StaleSec := 30 * 60

  /** The intent time, else the start time. */
  function Baseline(info: RunInfo): Option<int> {
    if info.intentAt.Some? then info.intentAt else info.startedAt
  }

  /** An undecided open run whose baseline is at least half an hour old. */
  predicate Stale(info: RunInfo, now: int) {
    !Decided(info) && Baseline(info).Some? && now - Baseline(info).value >= StaleSec
  }

  function RecoveredClose(team: Team, info: RunInfo): Event {
    BuildEvent(team, RunClosed, Some(info.taskId), Some(info.runId),
               [("closeReason", JStr("recovered_close")), ("verdictEventId", OptStr(info.verdictEventId))],
               CloseKey(team, info.taskId, info.runId),
               FirstTruthy([info.verdictEventId, info.failedEventId, info.abortedEventId, info.completedEventId]))
  }

  function StaleFailKey(team: Team, tid: string, rid: string): string {
    team.project + ":" + tid + ":" + rid + ":WORKER_RUN_FAILED"
  }

  function StaleFailed(team: Team, info: RunInfo): Event {
    BuildEvent(team, WorkerRunFailed, Some(info.taskId), Some(info.runId), [("reason", JStr("stale after restart"))],
               StaleFailKey(team, info.taskId, info.runId), None)
  }

  function StaleClose(team: Team, info: RunInfo, failedId: Option<string>): Event {
    BuildEvent(team, RunClosed, Some(info.taskId), Some(info.runId),
               [("closeReason", JStr("stale_after_restart")), ("verdictEventId", JNull)],
               CloseKey(team, info.taskId, info.runId), failedId)
  }

  /**
   * The second loop for one run: a closed run is left alone, a decided one
   * is closed, a stale one is failed and closed, with the failure as the
   * cause of the close when the failure was appended.
   */
  function ReconcileOne(s: LogState, team: Team, info: RunInfo, env: Env, now: int): LogState {
    if info.closed then s
    else if Decided(info) then Next(s, RecoveredClose(team, info), env, now)
    else if Stale(info, now) then
      var (s1, r) := AppendSpec(s, StaleFailed(team, info), env, now);
      var failedId := if r.Appended? then r.event.eventId else None;
      Next(s1, StaleClose(team, info, failedId), env, now)
    else s
  }

  function ReconcileAll(s: LogState, team: Team, infos: seq<RunInfo>, env: Env, now: int): LogState
    decreases |infos|
  {
    if infos == [] then s
    else ReconcileOne(ReconcileAll(s, team, infos[..|infos| - 1], env, now), team, infos[|infos| - 1], env, now)
  }

  /** Reconciling one more run reconciles it on top of the earlier ones. */
  lemma ReconcileAllStep(s: LogState, team: Team, infos: seq<RunInfo>, j: nat, env: Env, now: int)
    requires j < |infos|
    ensures ReconcileAll(s, team, infos[..j + 1], env, now)
      == ReconcileOne(ReconcileAll(s, team, infos[..j], env, now), team, infos[j], env, now)
  {
    assert infos[..j + 1][..j] == infos[..j];
  }

  /** The keys reconciliation leaves in the log for one run. */
  function ReconcileKeys(team: Team, info: RunInfo, now: int): set<string> {
    if info.closed then {}
    else if Decided(info) then {CloseKey(team, info.taskId, info.runId)}
    else if Stale(info, now) then {StaleFailKey(team, info.taskId, info.runId), CloseKey(team, info.taskId, info.runId)}
    else {}
  }

  function AllReconcileKeys(team: Team, infos: seq<RunInfo>, now: int): set<string>
    decreases |infos|
  {
    if infos == [] then {}
    else AllReconcileKeys(team, infos[..|infos| - 1], now) + ReconcileKeys(team, infos[|infos| - 1], now)
  }

  // ---- validate_incoming ----

  /** The run a task is locked to, or None. */
  function LockOf(locks: seq<(string, Option<string>)>, tid: string): (r: Option<string>)
    ensures r.Some? ==> (tid, r) in locks
    decreases |locks|
  {
    if locks == [] then None
    else if locks[|locks| - 1].0 == tid then locks[|locks| - 1].1
    else LockOf(locks[..|locks| - 1], tid)
  }

  /** The actors whose messages must come from the task's locked run. */
  predicate RunBound(actor: string) {
    actor == "worker" || actor == "watchdog"
  }

  /** Whether an incoming message is accepted, given the run its task is locked to. */
  predicate Accepts(actor: string, taskId: Option<string>, runId: Option<string>, expected: Option<string>) {
    !Text.Truthy(taskId) || !RunBound(actor) || (Text.Truthy(runId) && runId == expected)
  }

  /**
   * The MESSAGE_IGNORED record of a rejected message; `digest` is the first
   * twelve hex digits of the SHA-256 of `"{runId}:{messageType}"`.
   */
  function IgnoredEvent(team: Team, actor: string, tid: string, runId: Option<string>, messageType: string,
                        expected: Option<string>, digest: string): Event {
    BuildEvent(team, MessageIgnored, Some(tid), expected,
               [("actor", JStr(actor)), ("expectedRunId", OptStr(expected)), ("receivedRunId", OptStr(runId)),
                ("messageType", JStr(messageType))],
               team.project + ":" + tid + ":" + Text.Show(expected) + ":MESSAGE_IGNORED:" + digest, None)
  }

  // ---- _aggregate_results ----

  /** A finished task as `_aggregate_results` reports it. */
  datatype Outcome = Outcome(taskId: string, state: string, runId: Option<string>, result: Dict,
                             verdict: Json, evidencePath: Json, quality: Json)

  /**
   * A task's current run id, or else its last run id. A listed done task has no
   * `runId`; an open one has no `lastRunId`.
   */
  function LastRunId(t: Reducer.TaskOut): Option<string> {
    if t.DoneOut? then t.lastRunId else Keep(t.runId)
  }

  /**
   * The report of one listed task: a done task (listed without a state) that
   * names a run, or a blocked task. A done task is listed without result,
   * verdict and evidence, so those read as empty.
   */
  function OutcomeOf(t: Reducer.TaskOut): Option<Outcome> {
    if t.DoneOut? then
      if t.lastRunId.Some? then Some(Outcome(t.taskId, "done", t.lastRunId, [], JNull, JNull, JNull)) else None
    else if t.state == Reducer.Blocked then
      Some(Outcome(t.taskId, "blocked", LastRunId(t), t.result, Get(t.lastVerdict, "verdict"),
                   Get(t.lastEvidence, "evidencePath"), Get(t.result, "quality")))
    else None
  }

  function Aggregate(tasks: seq<Reducer.TaskOut>): seq<Outcome>
    decreases |tasks|
  {
    if tasks == [] then []
    else
      var o := OutcomeOf(tasks[|tasks| - 1]);
      Aggregate(tasks[..|tasks| - 1]) + (if o.Some? then [o.value] else [])
  }
}
