/**
 * The orchestrator: one object holding the event log, whose policies read
 * the events or the derived status and append follow-up events. Each
 * method is proved to leave the log exactly as appending its policy's plan
 * (module `Policies`) would.
 */
module Orchestrator {
  import opened Wrappers
  import Text
  import opened Json
  import opened Protocol
  import opened StateManager
  import Reducer
  import opened Policies

  /** `_event_index` */
  method EventIndex(events: seq<Event>) returns (idx: Index)
    ensures idx == IndexOf(events)
  {
    idx := NoIndex;
    var i := 0;
    while i < |events|
      invariant 0 <= i <= |events|
      invariant idx == IndexOf(events[..i])
    {
      assert events[..i + 1][..i] == events[..i];
      var ev := events[i];
      var t := ev.etype;
      if t == ProjectHalted {
        var verdictId := HaltVerdictId(ev);
        if Truthy(verdictId) {
          idx := idx.(haltedByVerdict := idx.haltedByVerdict + {verdictId});
        }
        if ev.at.Some? && (idx.lastHalted.None? || ev.at.value > idx.lastHalted.value) {
          idx := idx.(lastHalted := ev.at);
        }
      } else if t == WorkerRunAborted {
        idx := idx.(aborted := idx.aborted + {(ev.taskId, ev.runId)});
      } else if t == RunClosed {
        idx := idx.(closed := idx.closed + {(ev.taskId, ev.runId)});
      } else if t == WatchdogHeartbeat {
        if ev.at.Some? && (idx.lastHeartbeat.None? || ev.at.value > idx.lastHeartbeat.value) {
          idx := idx.(lastHeartbeat := ev.at);
        }
      } else if t == ProjectStarted {
        if ev.at.Some? && (idx.lastStarted.None? || ev.at.value > idx.lastStarted.value) {
          idx := idx.(lastStarted := ev.at);
        }
      } else if t == ProjectResumed {
        if ev.at.Some? && (idx.lastResumed.None? || ev.at.value > idx.lastResumed.value) {
          idx := idx.(lastResumed := ev.at);
        }
      } else if t == ProjectFinished {
        if ev.at.Some? && (idx.lastFinished.None? || ev.at.value > idx.lastFinished.value) {
          idx := idx.(lastFinished := ev.at);
        }
      }
      i := i + 1;
    }
    assert events[..i] == events;
  }

  /** The search for a run's start time inside `_check_worker_timeouts`: the first timed start wins. */
  method FindStart(events: seq<Event>, tid: string, rid: string) returns (start: Option<int>)
    ensures start == FirstStart(events, tid, rid)
  {
    start := None;
    var i := 0;
    while i < |events| && start.None?
      invariant 0 <= i <= |events|
      invariant start == FirstStart(events[..i], tid, rid)
    {
      assert events[..i + 1][..i] == events[..i];
      var ev := events[i];
      if TimedStart(ev, tid, rid) {
        start := ev.at;
      }
      i := i + 1;
    }
    if start.Some? {
      FirstStartSettled(events, i, tid, rid);
    } else {
      assert events[..i] == events;
    }
  }

  /** The first loop of `_check_worker_timeouts`: the runs that overran the worker timeout. */
  method TimedOutRuns(tasks: seq<Reducer.TaskOut>, events: seq<Event>, now: int, config: Config)
    returns (timedOut: seq<(string, string)>)
    ensures timedOut == TimedOut(tasks, events, now, config)
  {
    timedOut := [];
    var i := 0;
    while i < |tasks|
      invariant 0 <= i <= |tasks|
      invariant timedOut == TimedOut(tasks[..i], events, now, config)
    {
      assert tasks[..i + 1][..i] == tasks[..i];
      var task := tasks[i];
      if task.OpenOut? && task.state == Reducer.Running && Text.Truthy(task.runId) {
        var start := FindStart(events, task.taskId, task.runId.value);
        if start.Some? && now - start.value > config.workerTimeoutMinutes * 60 {
          timedOut := timedOut + [(task.taskId, task.runId.value)];
        }
      }
      i := i + 1;
    }
    assert tasks[..i] == tasks;
  }

  /** The first loop of `_reconcile_open_runs`: `run_info` from the sorted events. */
  method TrackRuns(sorted: seq<Event>) returns (infos: seq<RunInfo>)
    ensures infos == RunsOf(sorted)
  {
    infos := [];
    var i := 0;
    while i < |sorted|
      invariant 0 <= i <= |sorted|
      invariant infos == RunsOf(sorted[..i])
    {
      assert sorted[..i + 1][..i] == sorted[..i];
      var ev := sorted[i];
      if Text.Truthy(ev.taskId) && Text.Truthy(ev.runId) {
        var tid, rid := ev.taskId.value, ev.runId.value;
        var found := FindRun(infos, tid, rid);
        if found.Some? {
          infos := infos[found.value := RunUpdate(infos[found.value], ev)];
        } else {
          infos := infos + [RunUpdate(NewInfo(tid, rid), ev)];
        }
      }
      i := i + 1;
    }
    assert sorted[..i] == sorted;
  }

  /** `_aggregate_results`: the done and blocked tasks of a status, in list order. */
  method AggregateResults(status: Reducer.Status) returns (results: seq<Outcome>)
    ensures results == Aggregate(status.tasks)
  {
    var tasks := status.tasks;
    results := [];
    var i := 0;
    while i < |tasks|
      invariant 0 <= i <= |tasks|
      invariant results == Aggregate(tasks[..i])
    {
      assert tasks[..i + 1][..i] == tasks[..i];
      var task := tasks[i];
      var lastRunId := LastRunId(task);
      var isDone := task.DoneOut? && lastRunId.Some?;
      var isBlocked := task.OpenOut? && task.state == Reducer.Blocked;
      if isDone {
        results := results + [Outcome(task.taskId, "done", lastRunId, [], JNull, JNull, JNull)];
      } else if isBlocked {
        results := results + [Outcome(task.taskId, "blocked", lastRunId, task.result, Get(task.lastVerdict, "verdict"),
                                      Get(task.lastEvidence, "evidencePath"), Get(task.result, "quality"))];
      }
      i := i + 1;
    }
    assert tasks[..i] == tasks;
  }

  class Orchestrator {
    const team: Team
    const config: Config
    const sm: EventLog

    constructor (team: Team, config: Config, newId: int -> string)
      ensures this.team == team && this.config == config
      ensures fresh(sm) && sm.State() == Empty && sm.env == Env(newId, EventCrc) && sm.Valid()
    {
      this.team := team;
      this.config := config;
      sm := new EventLog(newId);
    }

    /** Appends the events of one step of a plan and keeps the log equal to the plan's prefix so far. */
    method EmitAll(es: seq<Event>, now: int, ghost s0: LogState, ghost done: seq<Event>)
      requires sm.Valid() && sm.State() == AppendAll(s0, done, sm.env, now)
      modifies sm
      ensures sm.Valid() && sm.State() == AppendAll(s0, done + es, sm.env, now)
    {
      var k := 0;
      assert done + es[..k] == done;
      while k < |es|
        invariant 0 <= k <= |es|
        invariant sm.Valid() && sm.State() == AppendAll(s0, done + es[..k], sm.env, now)
      {
        AppendOne(s0, done + es[..k], es[k], sm.env, now);
        assert done + es[..k + 1] == (done + es[..k]) + [es[k]];
        var _ := sm.Append(es[k], now);
        k := k + 1;
      }
      assert es[..k] == es;
    }

    /** The halt, abort and close for one enforceable BLOCK verdict, each unless the index already holds it. */
    method EnforceVerdict(idx: Index, ev: Event, now: int, ghost s0: LogState, ghost done: seq<Event>)
      requires Enforceable(ev)
      requires sm.Valid() && sm.State() == AppendAll(s0, done, sm.env, now)
      modifies sm
      ensures sm.Valid() && sm.State() == AppendAll(s0, done + BlockEvents(team, idx, ev), sm.env, now)
    {
      var vid, tid, rid := ev.eventId.value, ev.taskId.value, ev.runId.value;
      var halt, abort, close: seq<Event> := [], [], [];
      if JStr(vid) !in idx.haltedByVerdict {
        halt := [HaltEvent(team, vid, tid, rid)];
      }
      if (ev.taskId, ev.runId) !in idx.aborted {
        abort := [AbortEvent(team, vid, tid, rid)];
      }
      if (ev.taskId, ev.runId) !in idx.closed {
        close := [BlockCloseEvent(team, vid, tid, rid)];
      }
      var plan := halt + abort + close;
      EmitAll(plan, now, s0, done);
    }

    /**
     * `_enforce_block_sequence`: every enforceable BLOCK verdict halts the
     * project and aborts and closes its run, skipping what the events
     * already record. The source tests and keys the halt and the abort with
     * an undefined `run_id`; this is the verdict's own run id.
     */
    method EnforceBlockSequence(events: seq<Event>, now: int)
      requires sm.Valid()
      modifies sm
      ensures sm.Valid()
      ensures sm.State() == AppendAll(old(sm.State()), BlockPlan(team, IndexOf(events), events), sm.env, now)
    {
      var idx := EventIndex(events);
      ghost var s0 := sm.State();
      ghost var done: seq<Event> := [];
      var i := 0;
      while i < |events|
        invariant 0 <= i <= |events|
        invariant EnforcedSoFar(idx, events, i, now, s0, done)
      {
        done := EnforceNext(idx, events, i, now, s0, done);
        i := i + 1;
      }
      assert events[..i] == events;
    }

    /** The state of the log after the loop of `_enforce_block_sequence` has seen the first `i` events. */
    ghost predicate EnforcedSoFar(idx: Index, events: seq<Event>, i: nat, now: int, s0: LogState, done: seq<Event>)
      requires i <= |events|
      reads sm
    {
      && sm.Valid()
      && done == BlockPlan(team, idx, events[..i])
      && sm.State() == AppendAll(s0, done, sm.env, now)
    }

    /** One event of `_enforce_block_sequence`: only an enforceable BLOCK verdict appends anything. */
    method EnforceNext(idx: Index, events: seq<Event>, i: nat, now: int, ghost s0: LogState, ghost done: seq<Event>)
      returns (ghost done': seq<Event>)
      requires i < |events| && EnforcedSoFar(idx, events, i, now, s0, done)
      modifies sm
      ensures EnforcedSoFar(idx, events, i + 1, now, s0, done')
    {
      assert events[..i + 1][..i] == events[..i];
      var ev := events[i];
      done' := done;
      if Enforceable(ev) {
        EnforceVerdict(idx, ev, now, s0, done);
        done' := done + BlockEvents(team, idx, ev);
      }
    }

    /**
     * `_watchdog_heartbeat`: reports an unresponsive watchdog once per time
     * window. The source passes `run_id=None`, a keyword `_build_event` does
     * not take; this passes no run id, as evidently meant. With a zero
     * timeout a due check divides by zero: `raised` reports that
     * ZeroDivisionError, and nothing is appended.
     */
    method WatchdogHeartbeat(events: seq<Event>, now: int) returns (raised: bool)
      requires sm.Valid()
      modifies sm
      ensures sm.Valid()
      ensures raised <==> HeartbeatRaises(config, IndexOf(events), now)
      ensures sm.State() == AppendAll(old(sm.State()), HeartbeatPlan(team, config, IndexOf(events), now), sm.env, now)
    {
      raised := false;
      var idx := EventIndex(events);
      if idx.lastFinished.Some? && (idx.lastStarted.None? || idx.lastFinished.value > idx.lastStarted.value) {
        return;
      }
      if idx.lastHalted.Some? && (idx.lastResumed.None? || idx.lastHalted.value > idx.lastResumed.value) {
        return;
      }
      if idx.lastHeartbeat.None? {
        return;
      }
      var delta := now - idx.lastHeartbeat.value;
      if delta < config.heartbeatTimeoutSec {
        return;
      }
      if config.heartbeatTimeoutSec == 0 {
        raised := true;
        return;
      }
      var window := if config.heartbeatTimeoutSec > 0 then now / config.heartbeatTimeoutSec
                    else (-now) / (-config.heartbeatTimeoutSec);
      var e := BuildEvent(team, WatchdogUnresponsive, None, None, [("lastHeartbeatAt", JInt(idx.lastHeartbeat.value))],
                          UnresponsiveKey(team, window), None);
      assert HeartbeatPlan(team, config, idx, now) == [] + [e];
      EmitAll([e], now, sm.State(), []);
    }

    /**
     * `_dispatch_pending_tasks`: nothing when the project is halted;
     * otherwise a fresh run for every pending task without gates. `runs(n)`
     * and `spawned(n)` are the run id and worker spawn answer of the `n`-th
     * dispatch.
     */
    method DispatchPendingTasks(status: Reducer.Status, now: int, runs: nat -> string, spawned: nat -> Json)
      returns (dispatched: Option<nat>)
      requires sm.Valid()
      modifies sm
      ensures sm.Valid()
      ensures status.project.halted ==> dispatched == None && sm.State() == old(sm.State())
      ensures !status.project.halted ==>
        && dispatched == Some(CountReady(status.tasks))
        && sm.State() == AppendAll(old(sm.State()), DispatchPlan(team, status.tasks, runs, spawned), sm.env, now)
    {
      if status.project.halted {
        return None;
      }
      var count := DispatchAll(status.tasks, now, runs, spawned);
      dispatched := Some(count);
    }

    /** The loop of `_dispatch_pending_tasks` over the listed tasks. */
    method DispatchAll(tasks: seq<Reducer.TaskOut>, now: int, runs: nat -> string, spawned: nat -> Json)
      returns (count: nat)
      requires sm.Valid()
      modifies sm
      ensures sm.Valid()
      ensures count == CountReady(tasks)
      ensures sm.State() == AppendAll(old(sm.State()), DispatchPlan(team, tasks, runs, spawned), sm.env, now)
    {
      count := 0;
      ghost var s0 := sm.State();
      ghost var done: seq<Event> := [];
      var i := 0;
      while i < |tasks|
        invariant 0 <= i <= |tasks|
        invariant DispatchedSoFar(tasks, i, now, runs, spawned, s0, done, count)
      {
        done, count := DispatchTask(tasks, i, now, runs, spawned, s0, done, count);
        i := i + 1;
      }
      assert tasks[..i] == tasks;
    }

    /** The state of the log after the loop of `_dispatch_pending_tasks` has seen the first `i` tasks. */
    ghost predicate DispatchedSoFar(tasks: seq<Reducer.TaskOut>, i: nat, now: int, runs: nat -> string, spawned: nat -> Json,
                                    s0: LogState, done: seq<Event>, count: nat)
      requires i <= |tasks|
      reads sm
    {
      && sm.Valid()
      && count == CountReady(tasks[..i])
      && done == DispatchPlan(team, tasks[..i], runs, spawned)
      && sm.State() == AppendAll(s0, done, sm.env, now)
    }

    /** One task of `_dispatch_pending_tasks`: a pending task without gates gets the next run. */
    method DispatchTask(tasks: seq<Reducer.TaskOut>, i: nat, now: int, runs: nat -> string, spawned: nat -> Json,
                        ghost s0: LogState, ghost done: seq<Event>, count: nat)
      returns (ghost done': seq<Event>, count': nat)
      requires i < |tasks| && DispatchedSoFar(tasks, i, now, runs, spawned, s0, done, count)
      modifies sm
      ensures DispatchedSoFar(tasks, i + 1, now, runs, spawned, s0, done', count')
    {
      DispatchPlanStep(team, tasks, i, runs, spawned);
      var task := tasks[i];
      done', count' := done, count;
      if task.OpenOut? && task.state == Reducer.Pending && task.gates == [] {
        var events := DispatchEvents(team, task.taskId, runs(count), spawned(count));
        EmitAll(events, now, s0, done);
        done', count' := done + events, count + 1;
      }
    }

    /**
     * `_check_worker_timeouts`: fails and closes the current run of every
     * running task whose first start in the log is more than the worker
     * timeout ago.
     */
    method CheckWorkerTimeouts(status: Reducer.Status, now: int)
      requires sm.Valid()
      modifies sm
      ensures sm.Valid()
      ensures sm.State() == AppendAll(old(sm.State()),
                                      TimeoutPlan(team, TimedOut(status.tasks, old(sm.State()).events, now, config)),
                                      sm.env, now)
    {
      var timedOut := TimedOutRuns(status.tasks, sm.events, now, config);
      ghost var s0 := sm.State();
      ghost var done: seq<Event> := [];
      var j := 0;
      while j < |timedOut|
        invariant 0 <= j <= |timedOut|
        invariant sm.Valid()
        invariant done == TimeoutPlan(team, timedOut[..j])
        invariant sm.State() == AppendAll(s0, done, sm.env, now)
      {
        TimeoutPlanStep(team, timedOut, j);
        var (tid, rid) := timedOut[j];
        var pair := TimeoutEvents(team, tid, rid);
        EmitAll(pair, now, s0, done);
        done := done + pair;
        j := j + 1;
      }
      assert timedOut[..j] == timedOut;
    }

    /**
     * `_auto_retry_blocked`: a new run and a TASK_RETRIED record for every
     * blocked task retried fewer than `max_retries` times. `retries(t)` is
     * the number of earlier retries of task `t`, and `runs(n)` the run id of
     * the `n`-th retry.
     */
    method AutoRetryBlocked(status: Reducer.Status, now: int, retries: string -> nat, runs: nat -> string)
      returns (retried: nat)
      requires sm.Valid()
      modifies sm
      ensures sm.Valid()
      ensures retried == if config.maxRetries <= 0 then 0 else CountRetryable(status.tasks, retries, config)
      ensures sm.State() == AppendAll(old(sm.State()), RetryPlan(team, status.tasks, retries, runs, config), sm.env, now)
    {
      if config.maxRetries <= 0 {
        RetriesOff(status.tasks, retries, config);
        return 0;
      }
      retried := RetryAll(status.tasks, now, retries, runs);
    }

    /** The loop of `_auto_retry_blocked`, once retries are allowed at all. */
    method RetryAll(tasks: seq<Reducer.TaskOut>, now: int, retries: string -> nat, runs: nat -> string)
      returns (retried: nat)
      requires sm.Valid()
      modifies sm
      ensures sm.Valid()
      ensures retried == CountRetryable(tasks, retries, config)
      ensures sm.State() == AppendAll(old(sm.State()), RetryPlan(team, tasks, retries, runs, config), sm.env, now)
    {
      retried := 0;
      ghost var s0 := sm.State();
      ghost var done: seq<Event> := [];
      var i := 0;
      while i < |tasks|
        invariant 0 <= i <= |tasks|
        invariant RetriedSoFar(tasks, i, now, retries, runs, s0, done, retried)
      {
        done, retried := RetryTask(tasks, i, now, retries, runs, s0, done, retried);
        i := i + 1;
      }
      assert tasks[..i] == tasks;
    }

    /** The state of the log after the loop of `_auto_retry_blocked` has seen the first `i` tasks. */
    ghost predicate RetriedSoFar(tasks: seq<Reducer.TaskOut>, i: nat, now: int, retries: string -> nat, runs: nat -> string,
                                 s0: LogState, done: seq<Event>, retried: nat)
      requires i <= |tasks|
      reads sm
    {
      && sm.Valid()
      && retried == CountRetryable(tasks[..i], retries, config)
      && done == RetryPlan(team, tasks[..i], retries, runs, config)
      && sm.State() == AppendAll(s0, done, sm.env, now)
    }

    /** One task of `_auto_retry_blocked`: a blocked task below the limit gets the next run id. */
    method RetryTask(tasks: seq<Reducer.TaskOut>, i: nat, now: int, retries: string -> nat, runs: nat -> string,
                     ghost s0: LogState, ghost done: seq<Event>, retried: nat)
      returns (ghost done': seq<Event>, retried': nat)
      requires i < |tasks| && RetriedSoFar(tasks, i, now, retries, runs, s0, done, retried)
      modifies sm
      ensures RetriedSoFar(tasks, i + 1, now, retries, runs, s0, done', retried')
    {
      RetryPlanStep(team, tasks, i, retries, runs, config);
      var task := tasks[i];
      var events: seq<Event> := [];
      retried' := retried;
      if task.OpenOut? && task.state == Reducer.Blocked {
        var count := retries(task.taskId);
        if count < config.maxRetries {
          events := RetryEvents(team, task.taskId, task.runId, count, runs(retried));
          retried' := retried + 1;
        }
      }
      EmitAll(events, now, s0, done);
      done' := done + events;
    }

    /** The second loop of `_reconcile_open_runs` for one run. */
    method ReconcileRun(info: RunInfo, now: int)
      requires sm.Valid()
      modifies sm
      ensures sm.Valid()
      ensures sm.State() == ReconcileOne(old(sm.State()), team, info, sm.env, now)
    {
      if info.closed {
        return;
      }
      if Decided(info) {
        var _ := sm.Append(RecoveredClose(team, info), now);
      } else {
        var baseline := if info.intentAt.Some? then info.intentAt else info.startedAt;
        if baseline.Some? && now - baseline.value >= StaleSec {
          FailStale(info, now);
        }
      }
    }

    /** A stale open run: the failure, then the close caused by it when the failure was appended. */
    method FailStale(info: RunInfo, now: int)
      requires sm.Valid()
      modifies sm
      ensures sm.Valid()
      ensures var (s1, r) := AppendSpec(old(sm.State()), StaleFailed(team, info), sm.env, now);
              sm.State() == Next(s1, StaleClose(team, info, if r.Appended? then r.event.eventId else None), sm.env, now)
    {
      var res := sm.Append(StaleFailed(team, info), now);
      var failedId := if res.Appended? then res.event.eventId else None;
      var _ := sm.Append(StaleClose(team, info, failedId), now);
    }

    /**
     * `_reconcile_open_runs`: after a restart, closes every open run whose
     * outcome is settled and fails and closes every stale one.
     */
    method ReconcileOpenRuns(events: seq<Event>, now: int)
      requires sm.Valid()
      modifies sm
      ensures sm.Valid()
      ensures sm.State() == ReconcileAll(old(sm.State()), team, Runs(events), sm.env, now)
    {
      var infos := TrackRuns(Reducer.SortEvents(events));
      ghost var s0 := sm.State();
      var j := 0;
      while j < |infos|
        invariant 0 <= j <= |infos|
        invariant sm.Valid()
        invariant sm.State() == ReconcileAll(s0, team, infos[..j], sm.env, now)
      {
        ReconcileAllStep(s0, team, infos, j, sm.env, now);
        ReconcileRun(infos[j], now);
        j := j + 1;
      }
      assert infos[..j] == infos;
    }

    /**
     * `validate_incoming`: a worker or watchdog message for a task must come
     * from the run the task is locked to; any other is recorded as
     * MESSAGE_IGNORED and refused. `digest(x)` is the first twelve hex
     * digits of the SHA-256 of `x`. The source passes the expected run as
     * `run_id=`, a keyword `_build_event` does not take; this passes it as
     * the event's run id, as evidently meant. When replaying the log
     * raises, so does the check, before anything is appended.
     */
    method ValidateIncoming(actor: string, taskId: Option<string>, runId: Option<string>, messageType: string,
                            now: int, digest: string -> string)
      returns (outcome: Completion<bool>)
      requires sm.Valid()
      modifies sm
      ensures sm.Valid()
      ensures !Text.Truthy(taskId) ==> outcome == Returned(true) && sm.State() == old(sm.State())
      ensures Text.Truthy(taskId) && Reducer.ReduceChecked(old(sm.State()).events).Raises? ==>
        outcome == Raises(Reducer.ReduceChecked(old(sm.State()).events).error) && sm.State() == old(sm.State())
      ensures Text.Truthy(taskId) && Reducer.ReduceChecked(old(sm.State()).events).Returned? ==>
        var expected := LockOf(Reducer.Reduce(old(sm.State()).events).locks.tasks, taskId.value);
        var accepted := Accepts(actor, taskId, runId, expected);
        && outcome == Returned(accepted)
        && sm.State() == if accepted then old(sm.State())
                         else Next(old(sm.State()),
                                   IgnoredEvent(team, actor, taskId.value, runId, messageType, expected,
                                                digest(Text.Show(runId) + ":" + messageType)),
                                   sm.env, now)
    {
      if !Text.Truthy(taskId) {
        return Returned(true);
      }
      var replayed := Reducer.ReduceEvents(sm.events);
      if replayed.Raises? {
        return Raises(replayed.error);
      }
      var expected := LockOf(replayed.value.locks.tasks, taskId.value);
      if actor == "worker" || actor == "watchdog" {
        if !Text.Truthy(runId) || runId != expected {
          var e := IgnoredEvent(team, actor, taskId.value, runId, messageType, expected,
                                digest(Text.Show(runId) + ":" + messageType));
          var _ := sm.Append(e, now);
          return Returned(false);
        }
        return Returned(true);
      }
      return Returned(true);
    }
  }
}
