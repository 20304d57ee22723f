/**
 * What the replay promises: an idempotency key is applied once, the outcome
 * does not depend on the order the log was read in, a task's state follows
 * the verdict priority, runs open and close as the run events say, the
 * derived locks, alerts and progress counts agree with the tables, and the
 * replay raises exactly on a malformed task spec it handles.
 */
module ReducerProperties {
  import opened Wrappers
  import Text
  import opened Json
  import opened Protocol
  import OrderedMap
  import Sorting
  import opened Reducer

  // ---- Idempotency keys ----

  /** A replayed event's truthy key is remembered, and no key is forgotten. */
  lemma StepRemembersKey(a: Acc, e: Event)
    ensures a.seen <= Step(a, e).seen
    ensures Text.Truthy(e.idempotencyKey) ==> e.idempotencyKey.value in Step(a, e).seen
  {
    if !Duplicate(a, e) && Text.Truthy(e.taskId) {
      var r := Record(a, e);
      assert TaskEffect(r, e, e.taskId.value).seen == r.seen;
    }
  }

  lemma {:induction false} FoldRemembersKeys(a: Acc, es: seq<Event>)
    ensures a.seen <= Fold(a, es).seen
    ensures forall i :: 0 <= i < |es| && Text.Truthy(es[i].idempotencyKey) ==>
      es[i].idempotencyKey.value in Fold(a, es).seen
    decreases |es|
  {
    if es != [] {
      var init := es[..|es| - 1];
      FoldRemembersKeys(a, init);
      StepRemembersKey(Fold(a, init), es[|es| - 1]);
      forall i | 0 <= i < |es| - 1 && Text.Truthy(es[i].idempotencyKey)
        ensures es[i].idempotencyKey.value in Fold(a, es).seen
      {
        assert es[i] == init[i];
      }
    }
  }

  /** An event whose key an earlier event already carried changes nothing. */
  lemma LaterDuplicateIgnored(a: Acc, es: seq<Event>, e: Event, i: int)
    requires 0 <= i < |es| && Text.Truthy(es[i].idempotencyKey)
    requires e.idempotencyKey == es[i].idempotencyKey
    ensures Fold(a, es + [e]) == Fold(a, es)
  {
    FoldRemembersKeys(a, es);
    assert (es + [e])[..|es|] == es;
  }

  // ---- Replay order ----

  lemma KeyLessIsStrictTotalOrder()
    ensures Sorting.StrictTotalOrder(KeyLess)
  {
    Sorting.StrLessIsStrictTotalOrder();
    forall x: (int, string), y: (int, string), z: (int, string) | KeyLess(x, y) && KeyLess(y, z)
      ensures KeyLess(x, z)
    {
      if x.0 == y.0 && y.0 == z.0 {
        Sorting.StrLessTransitive(x.1, y.1, z.1);
      }
    }
    forall x: (int, string), y: (int, string) | x != y ensures KeyLess(x, y) || KeyLess(y, x) {
      if x.0 == y.0 {
        Sorting.StrLessTotal(x.1, y.1);
      }
    }
  }

  /** The replay order is a rearrangement of the log in ascending (sequenceNumber, eventId). */
  lemma SortEventsOrders(events: seq<Event>)
    ensures multiset(SortEvents(events)) == multiset(events)
    ensures Sorting.Sorted(SortEvents(events), EventKey, KeyLess)
  {
    KeyLessIsStrictTotalOrder();
    Sorting.SortByPermutes(events, EventKey, KeyLess);
    Sorting.SortBySorted(events, EventKey, KeyLess);
  }

  /**
   * Two logs holding the same events, no two of which share a sort key,
   * reduce to the same status whatever order they were read in.
   */
  lemma ReduceOrderIndependent(es1: seq<Event>, es2: seq<Event>)
    requires multiset(es1) == multiset(es2)
    requires Sorting.DistinctKeys(es1, EventKey)
    ensures Reduce(es1) == Reduce(es2)
  {
    KeyLessIsStrictTotalOrder();
    Sorting.SortByOrderIndependent(es1, es2, EventKey, KeyLess);
  }

  // ---- Task state ----

  /** Re-deriving the state a second time changes nothing. */
  lemma RecomputeIdempotent(t: TaskState)
    ensures Recompute(Recompute(t)) == Recompute(t)
  {
    var v := t.runStatus.verdict;
    if !(v == JStr("BLOCK") || t.runStatus.failed) && !t.runStatus.aborted && t.runStatus.completed && v == JStr("PASS") {
      PutFrontIdempotent("quality", JStr("clean"), JStr("clean"), t.result);
    }
  }

  /**
   * The verdict priority: a BLOCK verdict or a failure blocks, else an abort
   * cancels, else a completed run with a PASS verdict is done; each clears the
   * gates. Otherwise state and gates are kept. The run record is never touched.
   */
  lemma RecomputePriority(t: TaskState)
    ensures var r := Recompute(t);
      var rs := t.runStatus;
      var decided := rs.verdict == JStr("BLOCK") || rs.failed || rs.aborted || (rs.completed && rs.verdict == JStr("PASS"));
      && r.runStatus == rs && r.runId == t.runId && r.taskId == t.taskId
      && r.state == (if rs.verdict == JStr("BLOCK") || rs.failed then Blocked
                     else if rs.aborted then Canceled
                     else if decided then Done
                     else t.state)
      && (decided ==> r.gates == {})
      && (!decided ==> r == t)
      && (r.state == Done && decided ==> Has(r.result, "quality"))
  {
    var r := Recompute(t);
    if r.state == Done && r != t {
      assert Keys(r.result)[0] == "quality";
    }
  }

  /** An event for another run than the task's current one leaves every table as it was. */
  lemma MismatchIgnored(a: Acc, e: Event)
    requires !Duplicate(a, e) && Text.Truthy(e.taskId)
    requires e.taskId.value in a.tasks.values && Mismatch(a.tasks.values[e.taskId.value], e)
    ensures Step(a, e).tasks == a.tasks
    ensures Step(a, e).openRuns == a.openRuns
    ensures Step(a, e).alerts == a.alerts
  {
  }

  /**
   * WORKER_RUN_INTENT assigns the task to the run and opens it; a run other
   * than the task's current one starts with a clean record.
   */
  lemma IntentOpensRun(a: Acc, e: Event)
    requires !Duplicate(a, e) && Text.Truthy(e.taskId) && e.etype == WorkerRunIntent
    ensures var tid := e.taskId.value;
      var r := Step(a, e);
      var old_runs := if tid in a.openRuns.values then a.openRuns.values[tid] else [];
      && tid in r.tasks.values && tid in r.openRuns.values
      && r.tasks.values[tid].state == Assigned
      && r.tasks.values[tid].runId == e.runId
      && r.openRuns.values[tid] == old_runs + [e.runId]
      && (tid !in a.tasks.values || a.tasks.values[tid].runId != e.runId ==>
            && r.tasks.values[tid].runStatus == NewRun
            && r.tasks.values[tid].lastEvidence == []
            && r.tasks.values[tid].lastVerdict == []
            && r.tasks.values[tid].result == [])
      && (forall k :: k != tid ==> (k in r.openRuns.values <==> k in a.openRuns.values))
      && (forall k :: k != tid && k in a.openRuns.values ==> r.openRuns.values[k] == a.openRuns.values[k])
  {
  }

  /**
   * RUN_CLOSED removes exactly that run from the task's open runs, and the
   * task leaves the table when it was its last one.
   */
  lemma RunClosedDropsRun(a: Acc, e: Event)
    requires AccValid(a)
    requires !Duplicate(a, e) && Text.Truthy(e.taskId) && e.etype == RunClosed
    requires e.taskId.value in a.openRuns.values && e.runId in a.openRuns.values[e.taskId.value]
    ensures var tid := e.taskId.value;
      var r := Step(a, e).openRuns;
      var before := a.openRuns.values[tid];
      && (tid in r.values <==> exists x :: x in before && x != e.runId)
      && (tid in r.values ==> forall x :: x in r.values[tid] <==> x in before && x != e.runId)
      && (forall k :: k != tid ==> (k in r.values <==> k in a.openRuns.values))
      && (forall k :: k != tid && k in r.values ==> r.values[k] == a.openRuns.values[k])
  {
    var tid := e.taskId.value;
    var before := a.openRuns.values[tid];
    var rest := Drop(before, e.runId);
    StepClosesRun(a, e);
    if rest != [] {
      assert rest[0] in rest;
    }
  }

  lemma StepClosesRun(a: Acc, e: Event)
    requires !Duplicate(a, e) && Text.Truthy(e.taskId) && e.etype == RunClosed
    ensures Step(a, e).openRuns == CloseRun(a.openRuns, e.taskId.value, e.runId)
  {
    assert !RunBound(RunClosed);
  }

  // ---- Project phase, mode and watchdog ----

  /** The project and watchdog effect of each project-level event type. */
  lemma ProjectEvents(a: Acc, e: Event)
    requires !Duplicate(a, e)
    ensures var r := Step(a, e);
      && (e.etype == ProjectHalted ==> r.halted && r.phase == PhaseHalted && !r.lockRunning)
      && (e.etype == ProjectResumed ==> !r.halted && r.phase == PhaseRunning && r.lockRunning)
      && (e.etype == ProjectFinished ==> !r.halted && r.phase == PhaseFinished && !r.lockRunning)
      && (e.etype == WatchdogUnresponsive ==>
            r.mode == Degraded && r.degradedReason == Some("watchdog_unresponsive") && r.watchdog == Unresponsive)
      && (e.etype == VerdictTimeout ==> r.mode == Degraded && r.degradedReason == Some("verdict_timeout"))
      && (e.etype == RecoveryStarted ==> r.mode == Degraded && r.degradedReason == Some("recovery_in_progress"))
      && (e.etype == ProjectModeRestored ==> r.mode == Normal && r.degradedReason == None)
      && (e.etype == WatchdogHeartbeat ==> r.watchdog == Healthy && r.lastHeartbeatAt == e.at)
  {
    StepProjectFields(a, e);
    RecordProjectEvents(a, e);
  }

  /** The event's task effect leaves the project and watchdog fields as the shared part set them. */
  lemma StepProjectFields(a: Acc, e: Event)
    requires !Duplicate(a, e)
    ensures var r, q := Step(a, e), Record(a, e);
      && r.halted == q.halted && r.phase == q.phase && r.lockRunning == q.lockRunning
      && r.mode == q.mode && r.degradedReason == q.degradedReason
      && r.watchdog == q.watchdog && r.lastHeartbeatAt == q.lastHeartbeatAt
  {
    if Text.Truthy(e.taskId) {
      var q := Record(a, e);
      assert TaskEffect(q, e, e.taskId.value).(tasks := q.tasks, openRuns := q.openRuns, alerts := q.alerts) == q;
    }
  }

  lemma RecordProjectEvents(a: Acc, e: Event)
    ensures var r := Record(a, e);
      && (e.etype == ProjectHalted ==> r.halted && r.phase == PhaseHalted && !r.lockRunning)
      && (e.etype == ProjectResumed ==> !r.halted && r.phase == PhaseRunning && r.lockRunning)
      && (e.etype == ProjectFinished ==> !r.halted && r.phase == PhaseFinished && !r.lockRunning)
      && (e.etype == WatchdogUnresponsive ==>
            r.mode == Degraded && r.degradedReason == Some("watchdog_unresponsive") && r.watchdog == Unresponsive)
      && (e.etype == VerdictTimeout ==> r.mode == Degraded && r.degradedReason == Some("verdict_timeout"))
      && (e.etype == RecoveryStarted ==> r.mode == Degraded && r.degradedReason == Some("recovery_in_progress"))
      && (e.etype == ProjectModeRestored ==> r.mode == Normal && r.degradedReason == None)
      && (e.etype == WatchdogHeartbeat ==> r.watchdog == Healthy && r.lastHeartbeatAt == e.at)
  {
    var key := e.idempotencyKey;
    var a1 := a.(
      seen := if Text.Truthy(key) then a.seen + {key.value} else a.seen,
      name := if Text.Truthy(e.project) then e.project.value else a.name);
    var p := ProjectEffect(a1, e.etype);
    var w := WatchdogEffect(p, e);
    var r := Record(a, e);
    assert r == w || r == w.(risks := w.risks + [Risk(Name(e.etype), e.eventId, e.payload)]);
    ProjectEffectFacts(a1, e.etype);
    ModeEffectFacts(a1, e.etype);
    WatchdogEffectFacts(p, e);
  }

  lemma ProjectEffectFacts(x: Acc, t: EventType)
    ensures var r := ProjectEffect(x, t);
      && (t == ProjectHalted ==> r.halted && r.phase == PhaseHalted && !r.lockRunning)
      && (t == ProjectResumed ==> !r.halted && r.phase == PhaseRunning && r.lockRunning)
      && (t == ProjectFinished ==> !r.halted && r.phase == PhaseFinished && !r.lockRunning)
  {
    match t
    case ProjectHalted =>
    case ProjectResumed =>
    case ProjectFinished =>
    case _ =>
  }

  lemma ModeEffectFacts(x: Acc, t: EventType)
    ensures var r := ProjectEffect(x, t);
      && (t == WatchdogUnresponsive ==> r.mode == Degraded && r.degradedReason == Some("watchdog_unresponsive"))
      && (t == VerdictTimeout ==> r.mode == Degraded && r.degradedReason == Some("verdict_timeout"))
      && (t == RecoveryStarted ==> r.mode == Degraded && r.degradedReason == Some("recovery_in_progress"))
      && (t == ProjectModeRestored ==> r.mode == Normal && r.degradedReason == None)
  {
    match t
    case WatchdogUnresponsive =>
    case VerdictTimeout =>
    case RecoveryStarted =>
    case ProjectModeRestored =>
    case _ =>
  }

  lemma WatchdogEffectFacts(x: Acc, e: Event)
    ensures var r := WatchdogEffect(x, e);
      && r.halted == x.halted && r.phase == x.phase && r.lockRunning == x.lockRunning
      && r.mode == x.mode && r.degradedReason == x.degradedReason
      && (e.etype == WatchdogUnresponsive ==> r.watchdog == Unresponsive)
      && (e.etype == WatchdogHeartbeat ==> r.watchdog == Healthy && r.lastHeartbeatAt == e.at)
  {
  }

  /** A log whose last replayed event halts the project reports the project lock idle. */
  lemma HaltIdlesProjectLock(es: seq<Event>, e: Event)
    requires e.etype == ProjectHalted && !Duplicate(Fold(Init, es), e)
    ensures AccValid(Fold(Init, es + [e]))
    ensures Finalize(Fold(Init, es + [e])).locks.project == "idle"
    ensures Finalize(Fold(Init, es + [e])).project.phase == PhaseHalted
  {
    assert (es + [e])[..|es|] == es;
    FoldValid(Init, es + [e]);
    ProjectEvents(Fold(Init, es), e);
  }

  /** A log whose last replayed event resumes the project reports the project lock running. */
  lemma ResumeRunsProjectLock(es: seq<Event>, e: Event)
    requires e.etype == ProjectResumed && !Duplicate(Fold(Init, es), e)
    ensures AccValid(Fold(Init, es + [e]))
    ensures Finalize(Fold(Init, es + [e])).locks.project == "running"
    ensures Finalize(Fold(Init, es + [e])).project.phase == PhaseRunning
  {
    assert (es + [e])[..|es|] == es;
    FoldValid(Init, es + [e]);
    ProjectEvents(Fold(Init, es), e);
  }

  // ---- Locks, alerts and the task list ----

  /** A task holds a lock on its run exactly when it has one open run; other tasks are reported. */
  lemma {:induction false} TaskLocksSpec(entries: seq<(string, seq<Option<string>>)>)
    ensures LocksMatch(entries, TaskLocks(entries).0, TaskLocks(entries).1)
    decreases |entries|
  {
    if entries != [] {
      var init := entries[..|entries| - 1];
      var last := entries[|entries| - 1];
      TaskLocksSpec(init);
      var r0 := TaskLocks(init);
      assert entries == init + [last];
      assert TaskLocks(entries) == if |last.1| == 1 then (r0.0 + [(last.0, last.1[0])], r0.1) else (r0.0, r0.1 + [last]);
      LocksStep(init, last, r0.0, r0.1);
    }
  }

  /**
   * The locks name exactly the entries with one run, and the reports are
   * exactly the other entries.
   */
  ghost predicate LocksMatch(entries: seq<(string, seq<Option<string>>)>,
                             locks: seq<(string, Option<string>)>, multi: seq<(string, seq<Option<string>>)>) {
    && (forall p :: p in locks ==> (p.0, [p.1]) in entries)
    && (forall x :: x in entries && |x.1| == 1 ==> (x.0, x.1[0]) in locks)
    && (forall x :: x in multi <==> x in entries && |x.1| != 1)
  }

  /** One more table entry: a lock when it holds exactly one run, a report otherwise. */
  lemma LocksStep(init: seq<(string, seq<Option<string>>)>, last: (string, seq<Option<string>>),
                  locks0: seq<(string, Option<string>)>, multi0: seq<(string, seq<Option<string>>)>)
    requires LocksMatch(init, locks0, multi0)
    ensures |last.1| == 1 ==> LocksMatch(init + [last], locks0 + [(last.0, last.1[0])], multi0)
    ensures |last.1| != 1 ==> LocksMatch(init + [last], locks0, multi0 + [last])
  {
    if |last.1| == 1 {
      assert [last.1[0]] == last.1;
    }
  }

  lemma RunEntriesSpec(m: OrderedMap.OMap<seq<Option<string>>>)
    requires OrderedMap.Valid(m)
    ensures forall x :: x in RunEntries(m) <==> x.0 in m.values && x.1 == m.values[x.0]
  {
    var r := RunEntries(m);
    forall x: (string, seq<Option<string>>) | x.0 in m.values && x.1 == m.values[x.0] ensures x in r {
      var i :| 0 <= i < |m.order| && m.order[i] == x.0;
      assert r[i] == x;
    }
  }

  /** The locks and multi-run reports of a table of open runs, stated over the table. */
  lemma TableLocks(m: OrderedMap.OMap<seq<Option<string>>>)
    requires OrderedMap.Valid(m) && forall k :: k in m.values ==> m.values[k] != []
    ensures var (locks, multi) := TaskLocks(RunEntries(m));
      && (forall p :: p in locks ==> p.0 in m.values && m.values[p.0] == [p.1])
      && (forall tid :: tid in m.values && |m.values[tid]| == 1 ==> (tid, m.values[tid][0]) in locks)
      && (forall tid :: tid in m.values && |m.values[tid]| > 1 ==> MultipleOpenRuns(tid, m.values[tid]) in MultiAlerts(multi))
      && (multi != [] <==> exists tid :: tid in m.values && |m.values[tid]| > 1)
  {
    var entries := RunEntries(m);
    RunEntriesSpec(m);
    TaskLocksSpec(entries);
    var (locks, multi) := TaskLocks(entries);
    forall tid | tid in m.values && |m.values[tid]| == 1 ensures (tid, m.values[tid][0]) in locks {
      assert (tid, m.values[tid]) in entries;
    }
    forall tid | tid in m.values && |m.values[tid]| > 1
      ensures MultipleOpenRuns(tid, m.values[tid]) in MultiAlerts(multi)
    {
      var x := (tid, m.values[tid]);
      assert x in multi;
      var i :| 0 <= i < |multi| && multi[i] == x;
      assert MultiAlerts(multi)[i] == MultipleOpenRuns(tid, m.values[tid]);
    }
    if multi != [] {
      assert multi[0] in multi;
      assert |m.values[multi[0].0]| > 1;
    }
  }

  /**
   * The derived locks: one per task with exactly one open run, on that run;
   * a task with several open runs degrades the project and raises an alert.
   */
  lemma FinalizeLocks(a: Acc)
    requires AccValid(a)
    ensures var st := Finalize(a);
      var runs := a.openRuns.values;
      && (forall p :: p in st.locks.tasks ==> p.0 in runs && runs[p.0] == [p.1])
      && (forall tid :: tid in runs && |runs[tid]| == 1 ==> (tid, runs[tid][0]) in st.locks.tasks)
      && (forall tid :: tid in runs && |runs[tid]| > 1 ==>
            && MultipleOpenRuns(tid, runs[tid]) in st.alerts
            && st.project.mode == Degraded
            && st.project.degradedReason == Some("multiple_open_runs"))
      && ((forall tid :: tid in runs ==> |runs[tid]| == 1) ==>
            st.project.mode == a.mode && st.project.degradedReason == a.degradedReason && st.alerts == a.alerts)
  {
    TableLocks(a.openRuns);
    var (locks, multi) := TaskLocks(RunEntries(a.openRuns));
    var st := Finalize(a);
    assert st.locks.tasks == locks;
    assert st.alerts == a.alerts + MultiAlerts(multi);
    assert st.project.mode == (if multi != [] then Degraded else a.mode);
    assert st.project.degradedReason == (if multi != [] then Some("multiple_open_runs") else a.degradedReason);
  }

  /** Listing keeps the order of the tasks and reports each as done exactly when it is. */
  lemma {:induction false} OutputsList(ts: seq<TaskState>)
    ensures forall i :: 0 <= i < |ts| ==> Outputs(ts)[i] == Out(ts[i])
    ensures forall i :: 0 <= i < |ts| ==> (Outputs(ts)[i].DoneOut? <==> ts[i].state == Done)
    ensures forall i :: 0 <= i < |ts| && Outputs(ts)[i].OpenOut? ==> Outputs(ts)[i].state == ts[i].state
    ensures forall i :: 0 <= i < |ts| ==> Outputs(ts)[i].taskId == ts[i].taskId
    decreases |ts|
  {
    if ts != [] {
      OutputsList(ts[..|ts| - 1]);
    }
  }

  /** The escalation pass keeps every task's state and identity, and only ever adds the review gate. */
  lemma {:induction false} EscalateKeeps(ts: seq<TaskState>)
    ensures forall i :: 0 <= i < |ts| ==>
      && EscalateAll(ts)[i].state == ts[i].state
      && EscalateAll(ts)[i].taskId == ts[i].taskId
      && EscalateAll(ts)[i].gates - {NeedsHumanReview} == ts[i].gates - {NeedsHumanReview}
      && (ts[i].state !in {Done, Blocked, Canceled} && AwaitingVerdict in ts[i].gates ==>
            NeedsHumanReview in EscalateAll(ts)[i].gates)
    decreases |ts|
  {
    if ts != [] {
      EscalateKeeps(ts[..|ts| - 1]);
    }
  }

  /** The number of tasks reported done. */
  function DoneReported(outs: seq<TaskOut>): nat
    decreases |outs|
  {
    if outs == [] then 0 else DoneReported(outs[..|outs| - 1]) + (if outs[|outs| - 1].DoneOut? then 1 else 0)
  }

  /** The number of tasks reported blocked. */
  function BlockedReported(outs: seq<TaskOut>): nat
    decreases |outs|
  {
    if outs == [] then 0
    else BlockedReported(outs[..|outs| - 1]) + (if outs[|outs| - 1].OpenOut? && outs[|outs| - 1].state == Blocked then 1 else 0)
  }

  lemma {:induction false} CountsReported(ts: seq<TaskState>)
    ensures DoneReported(Outputs(ts)) == CountState(ts, Done)
    ensures BlockedReported(Outputs(ts)) == CountState(ts, Blocked)
    decreases |ts|
  {
    if ts != [] {
      CountsReported(ts[..|ts| - 1]);
      assert Outputs(ts)[..|ts| - 1] == Outputs(ts[..|ts| - 1]);
    }
  }

  /**
   * Progress: the total is the number of tasks in the table and of tasks
   * listed, and done and blocked count the tasks listed as such.
   */
  lemma FinalizeProgress(a: Acc)
    requires AccValid(a)
    ensures var st := Finalize(a);
      && st.project.progress.total == |st.tasks| == |a.tasks.order|
      && st.project.progress.done == DoneReported(st.tasks)
      && st.project.progress.blocked == BlockedReported(st.tasks)
  {
    var ts := Tasks(a.tasks);
    var ts1 := if a.degradedReason == Some("watchdog_unresponsive") then EscalateAll(ts) else ts;
    CountsReported(ts1);
  }

  // ---- Exceptions ----

  /** The replay raises exactly when handling some event raises, in the state the earlier events left. */
  lemma FoldCheckedReturns(a: Acc, es: seq<Event>)
    ensures FoldChecked(a, es).Returned? <==>
      forall i :: 0 <= i < |es| ==> StepError(Fold(a, es[..i]), es[i]).None?
  {
    if FoldChecked(a, es).Returned? {
      forall i | 0 <= i < |es| ensures StepError(Fold(a, es[..i]), es[i]).None? {
        ReturnedNoError(a, es, i);
      }
    }
    if forall i :: 0 <= i < |es| ==> StepError(Fold(a, es[..i]), es[i]).None? {
      NoErrorReturned(a, es);
    }
  }

  lemma {:induction false} ReturnedNoError(a: Acc, es: seq<Event>, i: nat)
    requires i < |es| && FoldChecked(a, es).Returned?
    ensures StepError(Fold(a, es[..i]), es[i]).None?
    decreases |es|
  {
    var p := es[..|es| - 1];
    ReturnedLast(a, es);
    if i < |p| {
      ReturnedNoError(a, p, i);
      assert p[..i] == es[..i] && p[i] == es[i];
    }
  }

  /** A replay that returned returned on the prefix too, and the last event did not raise. */
  lemma ReturnedLast(a: Acc, es: seq<Event>)
    requires es != [] && FoldChecked(a, es).Returned?
    ensures FoldChecked(a, es[..|es| - 1]).Returned?
    ensures StepError(Fold(a, es[..|es| - 1]), es[|es| - 1]).None?
  {
  }

  lemma {:induction false} NoErrorReturned(a: Acc, es: seq<Event>)
    requires forall i :: 0 <= i < |es| ==> StepError(Fold(a, es[..i]), es[i]).None?
    ensures FoldChecked(a, es).Returned?
    decreases |es|
  {
    if es != [] {
      var p := es[..|es| - 1];
      forall i | 0 <= i < |p| ensures StepError(Fold(a, p[..i]), p[i]).None? {
        assert p[..i] == es[..i] && p[i] == es[i];
      }
      NoErrorReturned(a, p);
      assert StepError(Fold(a, es[..|p|]), es[|p|]).None?;
    }
  }

  /** When the replay raises, it raises the exception of the first event that does. */
  lemma {:induction false} FoldCheckedFirstError(a: Acc, es: seq<Event>)
    requires FoldChecked(a, es).Raises?
    ensures exists i :: (0 <= i < |es| && StepError(Fold(a, es[..i]), es[i]) == Some(FoldChecked(a, es).error) &&
      (forall j :: 0 <= j < i ==> StepError(Fold(a, es[..j]), es[j]).None?))
    decreases |es|
  {
    var p := es[..|es| - 1];
    forall j | 0 <= j < |p| ensures p[..j] == es[..j] && p[j] == es[j] {
    }
    if FoldChecked(a, p).Raises? {
      FoldCheckedFirstError(a, p);
    } else {
      FoldCheckedReturns(a, p);
      assert es[..|p|] == p;
    }
  }

  /** A log whose task specs are all well formed replays without raising, to `Reduce`. */
  lemma WellFormedReduces(events: seq<Event>)
    requires forall e :: e in events && e.etype == TaskspecPublished ==> PublishError(e.payload).None?
    ensures ReduceChecked(events) == Returned(Reduce(events))
  {
    var sorted := SortEvents(events);
    Sorting.SortByPermutes(events, EventKey, KeyLess);
    forall i | 0 <= i < |sorted| ensures StepError(Fold(Init, sorted[..i]), sorted[i]).None? {
      assert sorted[i] in multiset(sorted);
    }
    FoldCheckedReturns(Init, sorted);
  }

  /** A malformed task spec without a key, for a named task, makes the whole replay raise. */
  lemma MalformedSpecRaises(events: seq<Event>, e: Event)
    requires e in events && e.etype == TaskspecPublished && Text.Truthy(e.taskId) && !Text.Truthy(e.idempotencyKey)
    requires PublishError(e.payload).Some?
    ensures ReduceChecked(events).Raises?
  {
    var sorted := SortEvents(events);
    Sorting.SortByPermutes(events, EventKey, KeyLess);
    assert e in multiset(sorted);
    var i :| 0 <= i < |sorted| && sorted[i] == e;
    assert StepError(Fold(Init, sorted[..i]), sorted[i]).Some?;
    FoldCheckedReturns(Init, sorted);
  }
}
