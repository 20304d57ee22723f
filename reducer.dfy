/**
 * The reducer: replays the event log, in (sequenceNumber, eventId) order,
 * into the project status: project phase and mode, watchdog health, risks
 * and alerts, per-task state with its gates and current run, the open runs
 * per task, the locks derived from them, and the progress counts.
 *
 * A task's record is only ever reached through the task table, so it is
 * modelled as a value that each event replaces.
 */
module Reducer {
  import opened Wrappers
  import Text
  import opened Json
  import opened Protocol
  import OrderedMap
  import Sorting

  /** The gates that hold a task back from dispatch. */
  datatype Gate = AwaitingSkillDecision | AwaitingPolicyApproval | NeedsHumanReview | AwaitingVerdict

  function GateName(g: Gate): string {
    match g
    case AwaitingSkillDecision => Awaiting + "skill_decision"
    case AwaitingPolicyApproval => Awaiting + "policy_approval"
    case NeedsHumanReview => "needs_human_review"
    case AwaitingVerdict => Awaiting + "verdict"
  }

  const Awaiting := "awaiting_"


  /** Every gate, in the string order of its name. */
  const GateOrder: seq<Gate> := [AwaitingPolicyApproval, AwaitingSkillDecision, AwaitingVerdict, NeedsHumanReview]

  /** The names of the gates a task holds, in string order. */
  function SortedGates(gates: set<Gate>): (r: seq<string>)
    ensures forall g :: g in gates <==> GateName(g) in r
    ensures forall i, j :: 0 <= i < j < |r| ==> Sorting.StrLess(r[i], r[j])
  {
    GateNameInjective();
    GatesInSorted(gates, GateOrder);
    GatesIn(gates, GateOrder)
  }

  /** The names of the gates of `order` that are held, in the order of `order`. */
  function GatesIn(gates: set<Gate>, order: seq<Gate>): (r: seq<string>)
    decreases |order|
  {
    if order == [] then []
    else GatesIn(gates, order[..|order| - 1]) + (if order[|order| - 1] in gates then [GateName(order[|order| - 1])] else [])
  }

  lemma GateNameInjective()
    ensures forall g1, g2 :: GateName(g1) == GateName(g2) ==> g1 == g2
  {
    assert "awaiting_skill_decision"[9] == 's' && "awaiting_policy_approval"[9] == 'p';
    assert "needs_human_review"[0] == 'n' && "awaiting_verdict"[9] == 'v';
  }

  /** The position of a gate's name in string order. */
  function GateRank(g: Gate): nat {
    match g
    case AwaitingPolicyApproval => 0
    case AwaitingSkillDecision => 1
    case AwaitingVerdict => 2
    case NeedsHumanReview => 3
  }

  lemma GateNameLess(g1: Gate, g2: Gate)
    requires GateRank(g1) < GateRank(g2)
    ensures Sorting.StrLess(GateName(g1), GateName(g2))
  {
    var a, b, c := "policy_approval", "skill_decision", "verdict";
    if g2 == NeedsHumanReview {
      assert GateName(g1)[0] == 'a';
    } else if g1 == AwaitingPolicyApproval && g2 == AwaitingSkillDecision {
      assert Sorting.StrLess(a, b);
      Sorting.StrLessCommonPrefix(Awaiting, a, b);
    } else if g1 == AwaitingPolicyApproval {
      assert Sorting.StrLess(a, c);
      Sorting.StrLessCommonPrefix(Awaiting, a, c);
    } else {
      assert g1 == AwaitingSkillDecision && g2 == AwaitingVerdict;
      assert Sorting.StrLess(b, c);
      Sorting.StrLessCommonPrefix(Awaiting, b, c);
    }
  }

  lemma GatesInSorted(gates: set<Gate>, order: seq<Gate>)
    requires forall i, j :: 0 <= i < j < |order| ==> GateRank(order[i]) < GateRank(order[j])
    requires forall g1, g2 :: GateName(g1) == GateName(g2) ==> g1 == g2
    ensures var r := GatesIn(gates, order);
      && (forall i, j :: 0 <= i < j < |r| ==> Sorting.StrLess(r[i], r[j]))
      && (forall g :: GateName(g) in r <==> g in gates && g in order)
  {
    GatesInOrdered(gates, order);
    GatesInMembers(gates, order);
  }

  /** Every listed name sorts before the name of a gate ranked above all of `order`. */
  lemma {:induction false} GatesInBelow(gates: set<Gate>, order: seq<Gate>, h: Gate)
    requires forall k :: 0 <= k < |order| ==> GateRank(order[k]) < GateRank(h)
    ensures forall x :: x in GatesIn(gates, order) ==> Sorting.StrLess(x, GateName(h))
    decreases |order|
  {
    if order != [] {
      var last := order[|order| - 1];
      GatesInBelow(gates, order[..|order| - 1], h);
      GateNameLess(last, h);
    }
  }

  /** Listing gates in rank order lists their names in increasing string order. */
  lemma {:induction false} GatesInOrdered(gates: set<Gate>, order: seq<Gate>)
    requires forall i, j :: 0 <= i < j < |order| ==> GateRank(order[i]) < GateRank(order[j])
    ensures forall i, j :: 0 <= i < j < |GatesIn(gates, order)| ==> Sorting.StrLess(GatesIn(gates, order)[i], GatesIn(gates, order)[j])
    decreases |order|
  {
    if order != [] {
      var init, last := order[..|order| - 1], order[|order| - 1];
      GatesInOrdered(gates, init);
      var r0, r := GatesIn(gates, init), GatesIn(gates, order);
      if last in gates {
        GatesInBelow(gates, init, last);
        assert r == r0 + [GateName(last)];
        forall i, j | 0 <= i < j < |r| ensures Sorting.StrLess(r[i], r[j]) {
          if j == |r0| {
            assert r[i] == r0[i] && r0[i] in r0;
          } else {
            assert r[i] == r0[i] && r[j] == r0[j];
          }
        }
      } else {
        assert r == r0;
      }
    }
  }

  /** A gate's name is listed exactly when the gate is held and in `order`. */
  lemma {:induction false} GatesInMembers(gates: set<Gate>, order: seq<Gate>)
    requires forall g1, g2 :: GateName(g1) == GateName(g2) ==> g1 == g2
    ensures var r := GatesIn(gates, order);
      forall g :: GateName(g) in r <==> g in gates && g in order
    decreases |order|
  {
    if order != [] {
      var init, last := order[..|order| - 1], order[|order| - 1];
      GatesInMembers(gates, init);
      assert forall g :: g in order <==> g in init || g == last;
    }
  }

  /** The life-cycle state of a task. */
  datatype State = Pending | Assigned | Running | Blocked | Canceled | Done

  function StateName(s: State): string {
    match s
    case Pending => "pending"
    case Assigned => "assigned"
    case Running => "running"
    case Blocked => "blocked"
    case Canceled => "canceled"
    case Done => "done"
  }

  /** What has happened to the task's current run; `verdict` is the raw payload value. */
  datatype RunStatus = RunStatus(started: bool, completed: bool, verdict: Json, aborted: bool, failed: bool)

  const NewRun := RunStatus(false, false, JNull, false, false)

  datatype TaskState = TaskState(
    taskId: string,
    state: State,
    gates: set<Gate>,
    runId: Option<string>,
    runStatus: RunStatus,
    skillDecision: Dict,
    policyTier: Json,
    lastEvidence: Dict,
    lastVerdict: Dict,
    result: Dict,
    taskSpec: Dict)

  /** A task seen for the first time: pending, no gates, no run. */
  function NewTask(taskId: string): TaskState {
    TaskState(taskId, Pending, {}, None, NewRun, [], JNull, [], [], [], [])
  }

  /** `apply_gate` */
  function ApplyGate(t: TaskState, g: Gate, add: bool): (r: TaskState)
    ensures add ==> r.gates == t.gates + {g}
    ensures !add ==> r.gates == t.gates - {g}
    ensures r.(gates := t.gates) == t
  {
    t.(gates := if add then t.gates + {g} else t.gates - {g})
  }

  /** `recompute_state`: blocked before canceled before done; otherwise nothing changes. */
  function Recompute(t: TaskState): TaskState {
    var v := t.runStatus.verdict;
    if v == JStr("BLOCK") || t.runStatus.failed then t.(state := Blocked, gates := {})
    else if t.runStatus.aborted then t.(state := Canceled, gates := {})
    else if t.runStatus.completed && v == JStr("PASS") then
      t.(state := Done, result := PutFront("quality", JStr("clean"), t.result), gates := {})
    else t
  }

  datatype Phase = PhaseRunning | PhaseFinished | PhaseHalted
  datatype Mode = Normal | Degraded
  datatype WatchdogState = Healthy | Unresponsive

  /** A telemetry event recorded under `risks`. */
  datatype Risk = Risk(etype: string, eventId: Option<string>, payload: Dict)

  datatype Alert =
    | BlockedAlert(taskId: string, runId: Option<string>)
    | MultipleOpenRuns(taskId: string, runIds: seq<Option<string>>)

  /** The variables of the replay loop. */
  datatype Acc = Acc(
    seen: set<string>,
    name: string,
    phase: Phase,
    halted: bool,
    mode: Mode,
    degradedReason: Option<string>,
    lastHeartbeatAt: Option<int>,
    watchdog: WatchdogState,
    risks: seq<Risk>,
    alerts: seq<Alert>,
    lockRunning: bool,
    tasks: OrderedMap.OMap<TaskState>,
    openRuns: OrderedMap.OMap<seq<Option<string>>>)

  /** `build_base_status("unknown")` with nothing replayed yet. */
  const Init := Acc({}, "unknown", PhaseRunning, false, Normal, None, None, Healthy, [], [], false, OrderedMap.Empty(), OrderedMap.Empty())

  /** The project-level effect of an event type. */
  function ProjectEffect(a: Acc, t: EventType): (r: Acc)
    ensures r.(phase := a.phase, halted := a.halted, mode := a.mode, degradedReason := a.degradedReason,
               lockRunning := a.lockRunning) == a
  {
    match t
    case ProjectStarted => a.(lockRunning := true, phase := PhaseRunning)
    case ProjectFinished => a.(lockRunning := false, phase := PhaseFinished, halted := false)
    case ProjectHalted => a.(halted := true, phase := PhaseHalted, lockRunning := false)
    case ProjectResumed => a.(halted := false, phase := PhaseRunning, lockRunning := true)
    case ProjectModeRestored => a.(mode := Normal, degradedReason := None)
    case WatchdogUnresponsive => a.(mode := Degraded, degradedReason := Some("watchdog_unresponsive"))
    case VerdictTimeout => a.(mode := Degraded, degradedReason := Some("verdict_timeout"))
    case RecoveryStarted => a.(mode := Degraded, degradedReason := Some("recovery_in_progress"))
    case _ => a
  }

  function WatchdogEffect(a: Acc, e: Event): (r: Acc)
    ensures r.(lastHeartbeatAt := a.lastHeartbeatAt, watchdog := a.watchdog) == a
  {
    match e.etype
    case WatchdogHeartbeat => a.(lastHeartbeatAt := e.at, watchdog := Healthy)
    case WatchdogUnresponsive => a.(watchdog := Unresponsive)
    case _ => a
  }

  /** The telemetry types that are recorded as risks. */
  predicate IsRisk(t: EventType) {
    t in {MessageIgnored, WatchdogUnresponsive, VerdictTimeout, LockTimeoutDetected, CorruptedLineDetected}
  }

  /** The types that only count for the task's current run. */
  predicate RunBound(t: EventType) {
    t in {WorkerRunStarted, WorkerRunCompleted, WorkerRunFailed, WorkerRunAborted,
          EvidenceSubmitted, WatchdogVerdict, HumanVerdict}
  }

  /** `get_task`: the task table with an entry for `tid`. */
  function EnsureTask(m: OrderedMap.OMap<TaskState>, tid: string): (r: OrderedMap.OMap<TaskState>)
    ensures tid in r.values
    ensures forall k :: k in m.values ==> k in r.values && r.values[k] == m.values[k]
  {
    if tid in m.values then m else OrderedMap.Put(m, tid, NewTask(tid))
  }

  /** WORKER_RUN_INTENT: a different run starts afresh; the task is assigned to the run. */
  function Intent(t: TaskState, runId: Option<string>): TaskState {
    var t1 := if t.runId != runId then t.(runStatus := NewRun, lastEvidence := [], lastVerdict := [], result := []) else t;
    t1.(state := Assigned, runId := runId)
  }

  /** The runs of `runs` other than `r`, in order. */
  function Drop(runs: seq<Option<string>>, r: Option<string>): (out: seq<Option<string>>)
    ensures forall x :: x in out <==> x in runs && x != r
    decreases |runs|
  {
    if runs == [] then []
    else Drop(runs[..|runs| - 1], r) + (if runs[|runs| - 1] == r then [] else [runs[|runs| - 1]])
  }

  /** RUN_CLOSED: forget the run; a task left without open runs leaves the table. */
  function CloseRun(m: OrderedMap.OMap<seq<Option<string>>>, tid: string, r: Option<string>): OrderedMap.OMap<seq<Option<string>>> {
    if tid in m.values && r in m.values[tid] then
      var rest := Drop(m.values[tid], r);
      if rest == [] then OrderedMap.Remove(m, tid) else OrderedMap.Put(m, tid, rest)
    else m
  }

  /** The spec's own task id when it is truthy, otherwise the one given. */
  function SpecTaskId(spec: Dict, tid: string): string {
    match Get(spec, "taskId")
    case JStr(s) => if s != "" then s else tid
    case _ => tid
  }

  /** One entry of a TASKSPEC list: that task is pending, awaits a skill, and records its spec. */
  function PublishOne(m: OrderedMap.OMap<TaskState>, tid: string, spec: Json): OrderedMap.OMap<TaskState> {
    var d := AsDict(spec);
    var id := SpecTaskId(d, tid);
    var m1 := EnsureTask(m, id);
    OrderedMap.Put(m1, id, ApplyGate(m1.values[id].(state := Pending), AwaitingSkillDecision, true).(taskSpec := d))
  }

  function PublishSpecs(m: OrderedMap.OMap<TaskState>, tid: string, specs: seq<Json>): OrderedMap.OMap<TaskState>
    decreases |specs|
  {
    if specs == [] then m
    else PublishOne(PublishSpecs(m, tid, specs[..|specs| - 1]), tid, specs[|specs| - 1])
  }

  /** TASKSPEC_PUBLISHED, given a table that holds `tid`. */
  function Publish(m: OrderedMap.OMap<TaskState>, tid: string, p: Dict): OrderedMap.OMap<TaskState>
    requires tid in m.values
  {
    var specs := Get(p, "tasks");
    if Truthy(specs) then
      if specs.JList? then PublishSpecs(m, tid, specs.items) else m
    else OrderedMap.Put(m, tid, ApplyGate(m.values[tid].(state := Pending), AwaitingSkillDecision, true).(taskSpec := p))
  }

  /** The effect of the events that concern the one task named by the event. */
  function OnTask(t: TaskState, e: Event): TaskState {
    var p := e.payload;
    match e.etype
    case TaskSkillSet =>
      ApplyGate(t, AwaitingSkillDecision, false).(
        skillDecision := [("chosenSkill", Get(p, "chosenSkill")), ("decisionSeq", Get(p, "decisionSeq"))])
    case PolicyTierRequested => ApplyGate(t, AwaitingPolicyApproval, true)
    case PolicyTierApproved => ApplyGate(t, AwaitingPolicyApproval, false).(policyTier := Get(p, "tier"))
    case VerdictTimeout => ApplyGate(t, NeedsHumanReview, true)
    case WorkerRunStarted => t.(state := Running, runId := e.runId, runStatus := t.runStatus.(started := true))
    case WorkerRunCompleted => Recompute(t.(runStatus := t.runStatus.(completed := true), runId := e.runId))
    case WorkerRunFailed =>
      var t1 := t.(runStatus := t.runStatus.(failed := true), runId := e.runId);
      var reason := Or(Or(Get(p, "reason"), Get(p, "error")), Get(p, "message"));
      Recompute(if Truthy(reason) then t1.(result := PutFront("failureReason", reason, t1.result)) else t1)
    case WorkerRunAborted => Recompute(t.(runStatus := t.runStatus.(aborted := true), runId := e.runId))
    case EvidenceSubmitted => ApplyGate(t, AwaitingVerdict, true).(lastEvidence := p)
    case WatchdogVerdict =>
      var v := Get(p, "verdict");
      var t1 := ApplyGate(t.(runStatus := t.runStatus.(verdict := v), lastVerdict := p), AwaitingVerdict, false);
      Recompute(
        if v == JStr("WARN") then ApplyGate(t1, NeedsHumanReview, true)
        else if v == JStr("BLOCK") then t1.(state := Blocked, gates := {})
        else t1)
    case HumanVerdict =>
      var v := Get(p, "verdict");
      var t1 := t.(runStatus := t.runStatus.(verdict := v), lastVerdict := p);
      Recompute(
        if v == JStr("PASS") then ApplyGate(t1, NeedsHumanReview, false).(result := PutFront("quality", JStr("warn_override"), t1.result))
        else if v == JStr("BLOCK") then t1.(state := Blocked, gates := {})
        else t1)
    case _ => t
  }

  /** A run-bound event for another run than the task's current one. */
  predicate Mismatch(t: TaskState, e: Event) {
    RunBound(e.etype) && Text.Truthy(t.runId) && Text.Truthy(e.runId) && e.runId != t.runId
  }

  /** The task part of an event that names task `tid`. */
  function TaskEffect(a: Acc, e: Event, tid: string): (r: Acc)
    ensures r.(tasks := a.tasks, openRuns := a.openRuns, alerts := a.alerts) == a
  {
    var m := EnsureTask(a.tasks, tid);
    var t := m.values[tid];
    if Mismatch(t, e) then a.(tasks := m)
    else if e.etype == TaskspecPublished then a.(tasks := Publish(m, tid, e.payload))
    else if e.etype == WorkerRunIntent then
      var runs := if tid in a.openRuns.values then a.openRuns.values[tid] else [];
      a.(tasks := OrderedMap.Put(m, tid, Intent(t, e.runId)), openRuns := OrderedMap.Put(a.openRuns, tid, runs + [e.runId]))
    else if e.etype == RunClosed then a.(tasks := m, openRuns := CloseRun(a.openRuns, tid, e.runId))
    else a.(tasks := OrderedMap.Put(m, tid, OnTask(t, e)), alerts := a.alerts + BlockAlert(e, tid))
  }

  /** A BLOCK verdict from the watchdog raises a `blocked` alert. */
  function BlockAlert(e: Event, tid: string): seq<Alert> {
    if e.etype == WatchdogVerdict && Get(e.payload, "verdict") == JStr("BLOCK") then [BlockedAlert(tid, e.runId)] else []
  }

  /** An event whose truthy key was already replayed. */
  predicate Duplicate(a: Acc, e: Event) {
    Text.Truthy(e.idempotencyKey) && e.idempotencyKey.value in a.seen
  }

  /** The part of an event every type shares: key, project name, project and watchdog effects, risks. */
  function Record(a: Acc, e: Event): (r: Acc)
    ensures r.tasks == a.tasks && r.openRuns == a.openRuns && r.alerts == a.alerts
  {
    var key := e.idempotencyKey;
    var a1 := a.(
      seen := if Text.Truthy(key) then a.seen + {key.value} else a.seen,
      name := if Text.Truthy(e.project) then e.project.value else a.name);
    var a2 := WatchdogEffect(ProjectEffect(a1, e.etype), e);
    if IsRisk(e.etype) then a2.(risks := a2.risks + [Risk(Name(e.etype), e.eventId, e.payload)]) else a2
  }

  /** One iteration of the replay loop. */
  function Step(a: Acc, e: Event): Acc {
    if Duplicate(a, e) then a
    else if Text.Truthy(e.taskId) then TaskEffect(Record(a, e), e, e.taskId.value)
    else Record(a, e)
  }

  /** Replays events in the order given. */
  function Fold(a: Acc, es: seq<Event>): Acc
    decreases |es|
  {
    if es == [] then a else Step(Fold(a, es[..|es| - 1]), es[|es| - 1])
  }

  // ---- the exceptions of TASKSPEC_PUBLISHED ----

  const AttributeError := "AttributeError"
  const TypeError := "TypeError"

  /**
   * The exception one entry of a TASKSPEC `tasks` list raises: an entry
   * that is not a dict has no `get`, and a truthy list or dict as its
   * `taskId` cannot be a key of the task table.
   */
  function SpecError(spec: Json): Option<string> {
    if !spec.JObj? then Some(AttributeError)
    else
      var id := Get(spec.fields, "taskId");
      if Truthy(id) && (id.JList? || id.JObj?) then Some(TypeError) else None
  }

  /** The first exception the loop over a `tasks` list raises, if any. */
  function SpecsError(specs: seq<Json>): (r: Option<string>)
    ensures r.None? <==> forall i :: 0 <= i < |specs| ==> SpecError(specs[i]).None?
    ensures r.Some? ==> exists i :: 0 <= i < |specs| && SpecError(specs[i]) == r
    decreases |specs|
  {
    if specs == [] then None
    else if SpecError(specs[0]).Some? then SpecError(specs[0])
    else
      var r := SpecsError(specs[1..]);
      assert forall i :: 1 <= i < |specs| ==> specs[i] == specs[1..][i - 1];
      r
  }

  /**
   * The exception TASKSPEC_PUBLISHED raises for payload `p`. A truthy
   * `tasks` that is not a list is still iterated: a string yields its
   * characters and a dict its keys, which have no `get`, and a number or
   * `true` is not iterable.
   */
  function PublishError(p: Dict): Option<string> {
    var specs := Get(p, "tasks");
    if !Truthy(specs) then None
    else
      match specs
      case JList(items) => SpecsError(items)
      case JStr(_) => Some(AttributeError)
      case JObj(_) => Some(AttributeError)
      case _ => Some(TypeError)
  }

  /** The exception one iteration of the replay loop raises: only a TASKSPEC_PUBLISHED it handles can. */
  function StepError(a: Acc, e: Event): Option<string> {
    if Duplicate(a, e) || !Text.Truthy(e.taskId) || e.etype != TaskspecPublished then None
    else PublishError(e.payload)
  }

  /** The replay loop, ending at the first event whose handling raises. */
  function FoldChecked(a: Acc, es: seq<Event>): (r: Completion<Acc>)
    ensures r.Returned? ==> r.value == Fold(a, es)
    decreases |es|
  {
    if es == [] then Returned(a)
    else
      match FoldChecked(a, es[..|es| - 1])
      case Raises(err) => Raises(err)
      case Returned(b) =>
        var e := es[|es| - 1];
        if StepError(b, e).Some? then Raises(StepError(b, e).value) else Returned(Step(b, e))
  }

  /** Once the replay has raised, later events do not matter. */
  lemma {:induction false} FoldCheckedSticks(a: Acc, es: seq<Event>, k: nat)
    requires k <= |es| && FoldChecked(a, es[..k]).Raises?
    ensures FoldChecked(a, es) == FoldChecked(a, es[..k])
    decreases |es| - k
  {
    if k < |es| {
      var p := es[..|es| - 1];
      assert p[..k] == es[..k];
      FoldCheckedSticks(a, p, k);
      assert es[..|es|] == es;
    } else {
      assert es[..k] == es;
    }
  }

  /** The sort key: the sequence number (0 when absent), then the event id ("" when absent). */
  function EventKey(e: Event): (int, string) {
    (e.sequenceNumber.GetOr(0), e.eventId.GetOr(""))
  }

  /** Python's tuple order on sort keys. */
  predicate KeyLess(a: (int, string), b: (int, string)) {
    a.0 < b.0 || (a.0 == b.0 && Sorting.StrLess(a.1, b.1))
  }

  function SortEvents(events: seq<Event>): seq<Event> {
    Sorting.SortBy(events, EventKey, KeyLess)
  }

  /**
   * Both tables of the replay keep their key lists in step with their maps,
   * and a task listed under open runs has at least one.
   */
  ghost predicate AccValid(a: Acc) {
    && OrderedMap.Valid(a.tasks)
    && OrderedMap.Valid(a.openRuns)
    && (forall k :: k in a.openRuns.values ==> a.openRuns.values[k] != [])
  }

  lemma EnsureTaskValid(m: OrderedMap.OMap<TaskState>, tid: string)
    requires OrderedMap.Valid(m)
    ensures OrderedMap.Valid(EnsureTask(m, tid))
  {
    if tid !in m.values {
      OrderedMap.PutValid(m, tid, NewTask(tid));
    }
  }

  lemma {:induction false} PublishSpecsValid(m: OrderedMap.OMap<TaskState>, tid: string, specs: seq<Json>)
    requires OrderedMap.Valid(m)
    ensures OrderedMap.Valid(PublishSpecs(m, tid, specs))
    decreases |specs|
  {
    if specs != [] {
      var m0 := PublishSpecs(m, tid, specs[..|specs| - 1]);
      PublishSpecsValid(m, tid, specs[..|specs| - 1]);
      var d := AsDict(specs[|specs| - 1]);
      var id := SpecTaskId(d, tid);
      EnsureTaskValid(m0, id);
      var m1 := EnsureTask(m0, id);
      OrderedMap.PutValid(m1, id, ApplyGate(m1.values[id].(state := Pending), AwaitingSkillDecision, true).(taskSpec := d));
    }
  }

  lemma CloseRunValid(m: OrderedMap.OMap<seq<Option<string>>>, tid: string, r: Option<string>)
    requires OrderedMap.Valid(m) && forall k :: k in m.values ==> m.values[k] != []
    ensures var m' := CloseRun(m, tid, r);
      OrderedMap.Valid(m') && forall k :: k in m'.values ==> m'.values[k] != []
  {
    if tid in m.values && r in m.values[tid] {
      OrderedMap.RemoveValid(m, tid);
      OrderedMap.PutValid(m, tid, Drop(m.values[tid], r));
    }
  }

  lemma TaskEffectValid(a: Acc, e: Event, tid: string)
    requires AccValid(a)
    ensures AccValid(TaskEffect(a, e, tid))
  {
    EnsureTaskValid(a.tasks, tid);
    var m := EnsureTask(a.tasks, tid);
    if Mismatch(m.values[tid], e) || e.etype == TaskspecPublished || e.etype == RunClosed {
      TableEffectValid(a, e, tid);
    } else {
      RunEffectValid(a, e, tid);
    }
  }

  /** The effects that leave the open runs alone or only close one. */
  lemma TableEffectValid(a: Acc, e: Event, tid: string)
    requires AccValid(a) && OrderedMap.Valid(EnsureTask(a.tasks, tid))
    requires var m := EnsureTask(a.tasks, tid);
      Mismatch(m.values[tid], e) || e.etype == TaskspecPublished || e.etype == RunClosed
    ensures AccValid(TaskEffect(a, e, tid))
  {
    var m := EnsureTask(a.tasks, tid);
    var r := TaskEffect(a, e, tid);
    if Mismatch(m.values[tid], e) {
      WithValid(a, m, a.openRuns, a.alerts);
      assert r == a.(tasks := m, openRuns := a.openRuns, alerts := a.alerts);
    } else if e.etype == TaskspecPublished {
      PublishValid(m, tid, e.payload);
      WithValid(a, Publish(m, tid, e.payload), a.openRuns, a.alerts);
      assert r == a.(tasks := Publish(m, tid, e.payload), openRuns := a.openRuns, alerts := a.alerts);
    } else {
      CloseRunValid(a.openRuns, tid, e.runId);
      WithValid(a, m, CloseRun(a.openRuns, tid, e.runId), a.alerts);
      assert r == a.(tasks := m, openRuns := CloseRun(a.openRuns, tid, e.runId), alerts := a.alerts);
    }
  }

  /** The effects that put the task back: an intent that opens a run, and every other event. */
  lemma RunEffectValid(a: Acc, e: Event, tid: string)
    requires AccValid(a) && OrderedMap.Valid(EnsureTask(a.tasks, tid))
    requires var m := EnsureTask(a.tasks, tid);
      !Mismatch(m.values[tid], e) && e.etype != TaskspecPublished && e.etype != RunClosed
    ensures AccValid(TaskEffect(a, e, tid))
  {
    if e.etype == WorkerRunIntent {
      IntentEffectValid(a, e, tid);
    } else {
      OnTaskEffectValid(a, e, tid);
    }
  }

  lemma IntentEffectValid(a: Acc, e: Event, tid: string)
    requires AccValid(a) && OrderedMap.Valid(EnsureTask(a.tasks, tid))
    requires !Mismatch(EnsureTask(a.tasks, tid).values[tid], e) && e.etype == WorkerRunIntent
    ensures AccValid(TaskEffect(a, e, tid))
  {
    var m := EnsureTask(a.tasks, tid);
    var t := m.values[tid];
    var runs := if tid in a.openRuns.values then a.openRuns.values[tid] else [];
    var m', o' := OrderedMap.Put(m, tid, Intent(t, e.runId)), OrderedMap.Put(a.openRuns, tid, runs + [e.runId]);
    OrderedMap.PutValid(m, tid, Intent(t, e.runId));
    OrderedMap.PutValid(a.openRuns, tid, runs + [e.runId]);
    WithValid(a, m', o', a.alerts);
    assert TaskEffect(a, e, tid) == a.(tasks := m', openRuns := o', alerts := a.alerts);
  }

  lemma OnTaskEffectValid(a: Acc, e: Event, tid: string)
    requires AccValid(a) && OrderedMap.Valid(EnsureTask(a.tasks, tid))
    requires var m := EnsureTask(a.tasks, tid);
      !Mismatch(m.values[tid], e) && e.etype !in {TaskspecPublished, RunClosed, WorkerRunIntent}
    ensures AccValid(TaskEffect(a, e, tid))
  {
    var m := EnsureTask(a.tasks, tid);
    var t := m.values[tid];
    var m' := OrderedMap.Put(m, tid, OnTask(t, e));
    OrderedMap.PutValid(m, tid, OnTask(t, e));
    WithValid(a, m', a.openRuns, a.alerts + BlockAlert(e, tid));
    assert TaskEffect(a, e, tid) == a.(tasks := m', openRuns := a.openRuns, alerts := a.alerts + BlockAlert(e, tid));
  }

  /** The accumulator stays valid when its tables are replaced by valid ones. */
  lemma WithValid(a: Acc, tasks: OrderedMap.OMap<TaskState>, openRuns: OrderedMap.OMap<seq<Option<string>>>, alerts: seq<Alert>)
    requires OrderedMap.Valid(tasks) && OrderedMap.Valid(openRuns)
    requires forall k :: k in openRuns.values ==> openRuns.values[k] != []
    ensures AccValid(a.(tasks := tasks, openRuns := openRuns, alerts := alerts))
  {
  }

  lemma PublishValid(m: OrderedMap.OMap<TaskState>, tid: string, p: Dict)
    requires OrderedMap.Valid(m) && tid in m.values
    ensures OrderedMap.Valid(Publish(m, tid, p))
  {
    var specs := Get(p, "tasks");
    if specs.JList? {
      PublishSpecsValid(m, tid, specs.items);
    }
    OrderedMap.PutValid(m, tid, ApplyGate(m.values[tid].(state := Pending), AwaitingSkillDecision, true).(taskSpec := p));
  }

  lemma StepValid(a: Acc, e: Event)
    requires AccValid(a)
    ensures AccValid(Step(a, e))
  {
    if !Duplicate(a, e) && Text.Truthy(e.taskId) {
      TaskEffectValid(Record(a, e), e, e.taskId.value);
    }
  }

  lemma {:induction false} FoldValid(a: Acc, es: seq<Event>)
    requires AccValid(a)
    ensures AccValid(Fold(a, es))
    decreases |es|
  {
    if es != [] {
      FoldValid(a, es[..|es| - 1]);
      StepValid(Fold(a, es[..|es| - 1]), es[|es| - 1]);
    }
  }

  /** The final status: everything `reduce_events` returns apart from `updatedAt` and corrupted lines. */
  datatype Progress = Progress(total: nat, done: nat, blocked: nat)
  datatype ProjectStatus = ProjectStatus(name: string, phase: Phase, halted: bool, mode: Mode,
                                         degradedReason: Option<string>, progress: Progress)
  datatype WatchdogStatus = WatchdogStatus(lastHeartbeatAt: Option<int>, state: WatchdogState)
  datatype Locks = Locks(project: string, tasks: seq<(string, Option<string>)>)

  /** A task in the output list; a done task is reported without state, gates or run details. */
  datatype TaskOut =
    | DoneOut(taskId: string, resultSummary: Json, evidencePath: Json, lastRunId: Option<string>, spec: Option<Dict>)
    | OpenOut(taskId: string, state: State, gates: seq<string>, runId: Option<string>, skillDecision: Dict,
              policyTier: Json, lastEvidence: Dict, lastVerdict: Dict, result: Dict, spec: Option<Dict>)

  datatype Status = Status(project: ProjectStatus, watchdog: WatchdogStatus, tasks: seq<TaskOut>,
                           risks: seq<Risk>, alerts: seq<Alert>, locks: Locks)

  /** The tasks in insertion order. */
  function Tasks(m: OrderedMap.OMap<TaskState>): (r: seq<TaskState>)
    requires OrderedMap.Valid(m)
    ensures |r| == |m.order|
  {
    seq(|m.order|, i requires 0 <= i < |m.order| => m.values[m.order[i]])
  }

  function RunEntries(m: OrderedMap.OMap<seq<Option<string>>>): (r: seq<(string, seq<Option<string>>)>)
    requires OrderedMap.Valid(m)
    ensures |r| == |m.order|
  {
    seq(|m.order|, i requires 0 <= i < |m.order| => (m.order[i], m.values[m.order[i]]))
  }

  /** After an unresponsive watchdog, an unfinished task awaiting a verdict also needs human review. */
  function Escalate(t: TaskState): TaskState {
    if t.state in {Done, Blocked, Canceled} then t
    else if AwaitingVerdict in t.gates then ApplyGate(t, NeedsHumanReview, true)
    else t
  }

  function EscalateAll(ts: seq<TaskState>): (r: seq<TaskState>)
    ensures |r| == |ts|
    decreases |ts|
  {
    if ts == [] then [] else EscalateAll(ts[..|ts| - 1]) + [Escalate(ts[|ts| - 1])]
  }

  /** `locks.tasks` and the tasks with more than one open run, in table order. */
  function TaskLocks(entries: seq<(string, seq<Option<string>>)>): (seq<(string, Option<string>)>, seq<(string, seq<Option<string>>)>)
    decreases |entries|
  {
    if entries == [] then ([], [])
    else
      var (locks, multi) := TaskLocks(entries[..|entries| - 1]);
      var (tid, runs) := entries[|entries| - 1];
      if |runs| == 1 then (locks + [(tid, runs[0])], multi) else (locks, multi + [(tid, runs)])
  }

  function MultiAlerts(multi: seq<(string, seq<Option<string>>)>): (r: seq<Alert>)
    ensures |r| == |multi|
    ensures forall i :: 0 <= i < |multi| ==> r[i] == MultipleOpenRuns(multi[i].0, multi[i].1)
  {
    seq(|multi|, i requires 0 <= i < |multi| => MultipleOpenRuns(multi[i].0, multi[i].1))
  }

  /** The task spec when it is truthy, otherwise None. */
  function SpecOut(d: Dict): Option<Dict> {
    if d == [] then None else Some(d)
  }

  function Out(t: TaskState): TaskOut {
    if t.state == Done then
      DoneOut(t.taskId, Get(t.result, "summary"), Get(t.lastEvidence, "evidencePath"), t.runId, SpecOut(t.taskSpec))
    else
      OpenOut(t.taskId, t.state, SortedGates(t.gates), t.runId, t.skillDecision, t.policyTier,
              t.lastEvidence, t.lastVerdict, t.result, SpecOut(t.taskSpec))
  }

  function Outputs(ts: seq<TaskState>): (r: seq<TaskOut>)
    ensures |r| == |ts|
    decreases |ts|
  {
    if ts == [] then [] else Outputs(ts[..|ts| - 1]) + [Out(ts[|ts| - 1])]
  }

  /** The number of tasks in state `s`. */
  function CountState(ts: seq<TaskState>, s: State): (n: nat)
    ensures n <= |ts|
    decreases |ts|
  {
    if ts == [] then 0 else CountState(ts[..|ts| - 1], s) + (if ts[|ts| - 1].state == s then 1 else 0)
  }

  /** What follows the replay loop: escalation, locks, the task list and progress. */
  function Finalize(a: Acc): Status
    requires AccValid(a)
  {
    var ts := Tasks(a.tasks);
    var ts1 := if a.degradedReason == Some("watchdog_unresponsive") then EscalateAll(ts) else ts;
    var (locks, multi) := TaskLocks(RunEntries(a.openRuns));
    var outs := Outputs(ts1);
    Status(
      ProjectStatus(a.name, a.phase, a.halted,
                    if multi != [] then Degraded else a.mode,
                    if multi != [] then Some("multiple_open_runs") else a.degradedReason,
                    Progress(|outs|, CountState(ts1, Done), CountState(ts1, Blocked))),
      WatchdogStatus(a.lastHeartbeatAt, a.watchdog),
      outs, a.risks, a.alerts + MultiAlerts(multi),
      Locks(if a.lockRunning && !a.halted then "running" else "idle", locks))
  }

  /** The status `reduce_events` derives from the events read from the log. */
  function Reduce(events: seq<Event>): Status {
    var sorted := SortEvents(events);
    FoldValid(Init, sorted);
    Finalize(Fold(Init, sorted))
  }

  /** `reduce_events` on the events read from the log: the status, or the exception the replay raises. */
  function ReduceChecked(events: seq<Event>): (r: Completion<Status>)
    ensures r.Returned? ==> r.value == Reduce(events)
  {
    var sorted := SortEvents(events);
    FoldValid(Init, sorted);
    match FoldChecked(Init, sorted)
    case Raises(err) => Raises(err)
    case Returned(a) => Returned(Finalize(a))
  }

  /** `reduce_events`, on the events already read from the log. */
  method ReduceEvents(events: seq<Event>) returns (status: Completion<Status>)
    ensures status == ReduceChecked(events)
  {
    var sorted := SortEvents(events);
    var replayed := ReplayAll(sorted);
    if replayed.Raises? {
      ReduceCheckedRaises(events, replayed.error);
      return Raises(replayed.error);
    }
    var st := Finish(replayed.value);
    ReduceCheckedReturns(events, replayed.value);
    status := Returned(st);
  }

  /** The replay loop over the sorted events, stopping at the first that raises. */
  method ReplayAll(sorted: seq<Event>) returns (replayed: Completion<Acc>)
    ensures replayed == FoldChecked(Init, sorted)
    ensures replayed.Returned? ==> AccValid(replayed.value)
  {
    var acc := Init;
    var i := 0;
    while i < |sorted|
      invariant 0 <= i <= |sorted|
      invariant FoldChecked(Init, sorted[..i]) == Returned(acc)
      invariant AccValid(acc)
    {
      var next := ReplayOne(acc, sorted[i], sorted[..i]);
      assert sorted[..i] + [sorted[i]] == sorted[..i + 1];
      if next.Raises? {
        FoldCheckedSticks(Init, sorted, i + 1);
        return next;
      }
      acc := next.value;
      i := i + 1;
    }
    assert sorted[..i] == sorted;
    replayed := Returned(acc);
  }

  /** One iteration of the replay loop, on `e`, from the state the events `done` left. */
  method ReplayOne(acc: Acc, e: Event, ghost done: seq<Event>) returns (next: Completion<Acc>)
    requires FoldChecked(Init, done) == Returned(acc) && AccValid(acc)
    ensures next == FoldChecked(Init, done + [e])
    ensures next.Returned? ==> AccValid(next.value)
  {
    assert (done + [e])[..|done|] == done;
    var err := StepError(acc, e);
    if err.Some? {
      next := Raises(err.value);
    } else {
      StepValid(acc, e);
      next := Returned(Step(acc, e));
    }
  }

  lemma ReduceCheckedRaises(events: seq<Event>, err: string)
    requires FoldChecked(Init, SortEvents(events)) == Raises(err)
    ensures ReduceChecked(events) == Raises(err)
  {
  }

  lemma ReduceCheckedReturns(events: seq<Event>, a: Acc)
    requires FoldChecked(Init, SortEvents(events)) == Returned(a) && AccValid(a)
    ensures ReduceChecked(events) == Returned(Finalize(a))
  {
  }

  /** The passes after the replay loop: escalation, task locks, then the task list and its counts. */
  method Finish(a: Acc) returns (status: Status)
    requires AccValid(a)
    ensures status == Finalize(a)
  {
    var ts := Tasks(a.tasks);
    if a.degradedReason == Some("watchdog_unresponsive") {
      ts := EscalateTasks(ts);
    }
    var locks, multi := DeriveLocks(RunEntries(a.openRuns));
    var outs, done, blocked := ListTasks(ts);
    status := Status(
      ProjectStatus(a.name, a.phase, a.halted,
                    if multi != [] then Degraded else a.mode,
                    if multi != [] then Some("multiple_open_runs") else a.degradedReason,
                    Progress(|outs|, done, blocked)),
      WatchdogStatus(a.lastHeartbeatAt, a.watchdog),
      outs, a.risks, a.alerts + MultiAlerts(multi),
      Locks(if a.lockRunning && !a.halted then "running" else "idle", locks));
  }

  /** The pass over the tasks after an unresponsive watchdog. */
  method EscalateTasks(ts: seq<TaskState>) returns (escalated: seq<TaskState>)
    ensures escalated == EscalateAll(ts)
  {
    escalated := [];
    var i := 0;
    while i < |ts|
      invariant 0 <= i <= |ts|
      invariant escalated == EscalateAll(ts[..i])
    {
      assert ts[..i + 1][..i] == ts[..i];
      escalated := escalated + [Escalate(ts[i])];
      i := i + 1;
    }
    assert ts[..i] == ts;
  }

  /** The pass over the open runs: a single run is the task's lock, more are reported. */
  method DeriveLocks(entries: seq<(string, seq<Option<string>>)>)
    returns (locks: seq<(string, Option<string>)>, multi: seq<(string, seq<Option<string>>)>)
    ensures (locks, multi) == TaskLocks(entries)
  {
    locks, multi := [], [];
    var j := 0;
    while j < |entries|
      invariant 0 <= j <= |entries|
      invariant (locks, multi) == TaskLocks(entries[..j])
    {
      assert entries[..j + 1][..j] == entries[..j];
      var (tid, runs) := entries[j];
      if |runs| == 1 {
        locks := locks + [(tid, runs[0])];
      } else {
        multi := multi + [(tid, runs)];
      }
      j := j + 1;
    }
    assert entries[..j] == entries;
  }

  /** One more task extends the list by its output and each count by whether it is in that state. */
  lemma ListStep(ts: seq<TaskState>, k: nat)
    requires k < |ts|
    ensures Outputs(ts[..k + 1]) == Outputs(ts[..k]) + [Out(ts[k])]
    ensures forall s :: CountState(ts[..k + 1], s) == CountState(ts[..k], s) + (if ts[k].state == s then 1 else 0)
  {
    assert ts[..k + 1][..k] == ts[..k];
  }

  /** The pass that builds the task list and counts done and blocked tasks. */
  method ListTasks(ts: seq<TaskState>) returns (outs: seq<TaskOut>, done: nat, blocked: nat)
    ensures outs == Outputs(ts)
    ensures done == CountState(ts, Done) && blocked == CountState(ts, Blocked)
  {
    outs, done, blocked := [], 0, 0;
    var k := 0;
    while k < |ts|
      invariant 0 <= k <= |ts|
      invariant outs == Outputs(ts[..k])
      invariant done == CountState(ts[..k], Done)
      invariant blocked == CountState(ts[..k], Blocked)
    {
      ListStep(ts, k);
      if ts[k].state == Done {
        done := done + 1;
      } else if ts[k].state == Blocked {
        blocked := blocked + 1;
      }
      outs := outs + [Out(ts[k])];
      k := k + 1;
    }
    assert ts[..k] == ts;
  }
}
