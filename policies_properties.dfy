/**
 * What the orchestrator's policies guarantee: the event index agrees with a
 * direct reading of the events, block enforcement settles, the heartbeat
 * alert fires once per window, dispatch and retry create one run per
 * eligible task, reconciliation is idempotent, and an accepted worker
 * message comes from the task's only open run.
 */
module PolicyProperties {
  import opened Wrappers
  import Text
  import opened Json
  import opened Protocol
  import opened StateManager
  import Reducer
  import ReducerProperties
  import opened Policies

  // ---- the event index ----

  /** The timestamps the index keeps are the latest of each lifecycle type. */
  lemma {:induction false} IndexTimes(events: seq<Event>)
    ensures var idx := IndexOf(events);
      && idx.lastHeartbeat == LastOf(events, WatchdogHeartbeat)
      && idx.lastStarted == LastOf(events, ProjectStarted)
      && idx.lastResumed == LastOf(events, ProjectResumed)
      && idx.lastHalted == LastOf(events, ProjectHalted)
      && idx.lastFinished == LastOf(events, ProjectFinished)
    decreases |events|
  {
    if events != [] {
      var p := events[..|events| - 1];
      IndexTimes(p);
      IndexStepTimes(IndexOf(p), events[|events| - 1]);
    }
  }

  /** What one event does to the index's timestamps. */
  lemma IndexStepTimes(x: Index, e: Event)
    ensures var y := IndexStep(x, e);
      && y.lastHeartbeat == Latest(x.lastHeartbeat, if e.etype == WatchdogHeartbeat then e.at else None)
      && y.lastStarted == Latest(x.lastStarted, if e.etype == ProjectStarted then e.at else None)
      && y.lastResumed == Latest(x.lastResumed, if e.etype == ProjectResumed then e.at else None)
      && y.lastHalted == Latest(x.lastHalted, if e.etype == ProjectHalted then e.at else None)
      && y.lastFinished == Latest(x.lastFinished, if e.etype == ProjectFinished then e.at else None)
  {
  }

  /** An event of type `t` that carries a timestamp. */
  predicate TimedOf(e: Event, t: EventType) {
    e.etype == t && e.at.Some?
  }

  /** `LastOf` is the largest timestamp among the timed events of its type. */
  lemma LastOfIsLatest(events: seq<Event>, t: EventType)
    ensures LastOf(events, t).Some? <==> exists i :: 0 <= i < |events| && TimedOf(events[i], t)
    ensures LastOf(events, t).Some? ==> exists i :: 0 <= i < |events| && TimedOf(events[i], t) && events[i].at == LastOf(events, t)
    ensures forall i :: 0 <= i < |events| && TimedOf(events[i], t) ==>
      LastOf(events, t).Some? && events[i].at.value <= LastOf(events, t).value
  {
    LastOfBound(events, t);
    LastOfAttained(events, t);
  }

  lemma {:induction false} LastOfBound(events: seq<Event>, t: EventType)
    ensures forall i :: 0 <= i < |events| && TimedOf(events[i], t) ==>
      LastOf(events, t).Some? && events[i].at.value <= LastOf(events, t).value
    decreases |events|
  {
    if events != [] {
      var p, e := events[..|events| - 1], events[|events| - 1];
      LastOfBound(p, t);
      var r := LastOf(events, t);
      assert r == Latest(LastOf(p, t), if e.etype == t then e.at else None);
      forall i | 0 <= i < |events| && TimedOf(events[i], t) ensures r.Some? && events[i].at.value <= r.value {
        if i < |p| { assert p[i] == events[i]; }
      }
    }
  }

  lemma {:induction false} LastOfAttained(events: seq<Event>, t: EventType)
    ensures LastOf(events, t).Some? ==> exists i :: 0 <= i < |events| && TimedOf(events[i], t) && events[i].at == LastOf(events, t)
    decreases |events|
  {
    if events != [] {
      var p, e := events[..|events| - 1], events[|events| - 1];
      LastOfAttained(p, t);
      var r := LastOf(events, t);
      var ts := if e.etype == t then e.at else None;
      assert r == Latest(LastOf(p, t), ts);
      if r.Some? {
        if ts.Some? && r == ts {
          assert TimedOf(events[|events| - 1], t);
        } else {
          var i :| 0 <= i < |p| && TimedOf(p[i], t) && p[i].at == LastOf(p, t);
          assert p[i] == events[i];
        }
      }
    }
  }


  /** One event adds at most one element to each of the index's sets. */
  lemma IndexStepSets(x: Index, e: Event)
    ensures IndexStep(x, e).aborted == x.aborted + (if e.etype == WorkerRunAborted then {(e.taskId, e.runId)} else {})
    ensures IndexStep(x, e).closed == x.closed + (if e.etype == RunClosed then {(e.taskId, e.runId)} else {})
    ensures IndexStep(x, e).haltedByVerdict ==
      x.haltedByVerdict + (if e.etype == ProjectHalted && Truthy(HaltVerdictId(e)) then {HaltVerdictId(e)} else {})
  {
  }
  /** A run is in the index's aborted set exactly when an abort of it is among the events. */
  lemma IndexAborted(events: seq<Event>)
    ensures forall r :: r in IndexOf(events).aborted <==>
      exists i :: 0 <= i < |events| && events[i].etype == WorkerRunAborted && (events[i].taskId, events[i].runId) == r
  {
    forall r | r in IndexOf(events).aborted
      ensures exists i :: 0 <= i < |events| && events[i].etype == WorkerRunAborted && (events[i].taskId, events[i].runId) == r
    {
      IndexAbortedSound(events, r);
    }
    forall r, i | 0 <= i < |events| && events[i].etype == WorkerRunAborted && (events[i].taskId, events[i].runId) == r
      ensures r in IndexOf(events).aborted
    {
      IndexAbortedComplete(events, i);
    }
  }

  lemma {:induction false} IndexAbortedSound(events: seq<Event>, r: RunRef)
    requires r in IndexOf(events).aborted
    ensures exists i :: 0 <= i < |events| && events[i].etype == WorkerRunAborted && (events[i].taskId, events[i].runId) == r
    decreases |events|
  {
    var p := events[..|events| - 1];
    IndexStepSets(IndexOf(p), events[|events| - 1]);
    if r in IndexOf(p).aborted {
      IndexAbortedSound(p, r);
      var i :| 0 <= i < |p| && p[i].etype == WorkerRunAborted && (p[i].taskId, p[i].runId) == r;
      assert p[i] == events[i];
    } else {
      assert events[|events| - 1].etype == WorkerRunAborted && (events[|events| - 1].taskId, events[|events| - 1].runId) == r;
    }
  }

  lemma {:induction false} IndexAbortedComplete(events: seq<Event>, i: nat)
    requires i < |events| && events[i].etype == WorkerRunAborted
    ensures (events[i].taskId, events[i].runId) in IndexOf(events).aborted
    decreases |events|
  {
    var p := events[..|events| - 1];
    IndexStepSets(IndexOf(p), events[|events| - 1]);
    if i < |p| {
      assert p[i] == events[i];
      IndexAbortedComplete(p, i);
    }
  }

  /** A run is in the index's closed set exactly when a close of it is among the events. */
  lemma IndexClosed(events: seq<Event>)
    ensures forall r :: r in IndexOf(events).closed <==>
      exists i :: 0 <= i < |events| && events[i].etype == RunClosed && (events[i].taskId, events[i].runId) == r
  {
    forall r | r in IndexOf(events).closed
      ensures exists i :: 0 <= i < |events| && events[i].etype == RunClosed && (events[i].taskId, events[i].runId) == r
    {
      IndexClosedSound(events, r);
    }
    forall r, i | 0 <= i < |events| && events[i].etype == RunClosed && (events[i].taskId, events[i].runId) == r
      ensures r in IndexOf(events).closed
    {
      IndexClosedComplete(events, i);
    }
  }

  lemma {:induction false} IndexClosedSound(events: seq<Event>, r: RunRef)
    requires r in IndexOf(events).closed
    ensures exists i :: 0 <= i < |events| && events[i].etype == RunClosed && (events[i].taskId, events[i].runId) == r
    decreases |events|
  {
    var p := events[..|events| - 1];
    IndexStepSets(IndexOf(p), events[|events| - 1]);
    if r in IndexOf(p).closed {
      IndexClosedSound(p, r);
      var i :| 0 <= i < |p| && p[i].etype == RunClosed && (p[i].taskId, p[i].runId) == r;
      assert p[i] == events[i];
    } else {
      assert events[|events| - 1].etype == RunClosed && (events[|events| - 1].taskId, events[|events| - 1].runId) == r;
    }
  }

  lemma {:induction false} IndexClosedComplete(events: seq<Event>, i: nat)
    requires i < |events| && events[i].etype == RunClosed
    ensures (events[i].taskId, events[i].runId) in IndexOf(events).closed
    decreases |events|
  {
    var p := events[..|events| - 1];
    IndexStepSets(IndexOf(p), events[|events| - 1]);
    if i < |p| {
      assert p[i] == events[i];
      IndexClosedComplete(p, i);
    }
  }

  /** A verdict id is in the index exactly when a halt among the events cites it. */
  lemma IndexHalted(events: seq<Event>)
    ensures forall v :: v in IndexOf(events).haltedByVerdict <==>
      exists i :: 0 <= i < |events| && events[i].etype == ProjectHalted && HaltVerdictId(events[i]) == v && Truthy(v)
  {
    forall v | v in IndexOf(events).haltedByVerdict
      ensures exists i :: 0 <= i < |events| && events[i].etype == ProjectHalted && HaltVerdictId(events[i]) == v && Truthy(v)
    {
      IndexHaltedSound(events, v);
    }
    forall v, i | 0 <= i < |events| && events[i].etype == ProjectHalted && HaltVerdictId(events[i]) == v && Truthy(v)
      ensures v in IndexOf(events).haltedByVerdict
    {
      IndexHaltedComplete(events, i);
    }
  }

  lemma {:induction false} IndexHaltedSound(events: seq<Event>, v: Json)
    requires v in IndexOf(events).haltedByVerdict
    ensures exists i :: 0 <= i < |events| && events[i].etype == ProjectHalted && HaltVerdictId(events[i]) == v && Truthy(v)
    decreases |events|
  {
    var p := events[..|events| - 1];
    IndexStepSets(IndexOf(p), events[|events| - 1]);
    if v in IndexOf(p).haltedByVerdict {
      IndexHaltedSound(p, v);
      var i :| 0 <= i < |p| && p[i].etype == ProjectHalted && HaltVerdictId(p[i]) == v && Truthy(v);
      assert p[i] == events[i];
    } else {
      assert events[|events| - 1].etype == ProjectHalted && HaltVerdictId(events[|events| - 1]) == v && Truthy(v);
    }
  }

  lemma {:induction false} IndexHaltedComplete(events: seq<Event>, i: nat)
    requires i < |events| && events[i].etype == ProjectHalted && Truthy(HaltVerdictId(events[i]))
    ensures HaltVerdictId(events[i]) in IndexOf(events).haltedByVerdict
    decreases |events|
  {
    var p := events[..|events| - 1];
    IndexStepSets(IndexOf(p), events[|events| - 1]);
    if i < |p| {
      assert p[i] == events[i];
      IndexHaltedComplete(p, i);
    }
  }



  // ---- block enforcement ----

  /** Every event block enforcement plans carries an idempotency key. */
  lemma {:induction false} BlockPlanKeyed(team: Team, idx: Index, events: seq<Event>)
    ensures Keyed(BlockPlan(team, idx, events))
    decreases |events|
  {
    if events != [] {
      var p := events[..|events| - 1];
      BlockPlanKeyed(team, idx, p);
      PlannedKeyed(team, idx, events[|events| - 1]);
      assert BlockPlan(team, idx, events) == BlockPlan(team, idx, p) + Planned(team, idx, events[|events| - 1]);
      KeyedAppend(BlockPlan(team, idx, p), Planned(team, idx, events[|events| - 1]));
    }
  }

  lemma KeyedAppend(a: seq<Event>, b: seq<Event>)
    requires Keyed(a) && Keyed(b)
    ensures Keyed(a + b)
  {
    forall i | 0 <= i < |a + b| ensures (a + b)[i].idempotencyKey.Some? {
      if i >= |a| { assert (a + b)[i] == b[i - |a|]; }
    }
  }

  lemma PlannedKeyed(team: Team, idx: Index, v: Event)
    ensures Keyed(Planned(team, idx, v))
  {
    if Enforceable(v) {
      BlockEventsKeyed(team, idx, v);
    }
  }

  lemma BlockEventsKeyed(team: Team, idx: Index, v: Event)
    requires Enforceable(v)
    ensures Keyed(BlockEvents(team, idx, v))
  {
    var vid, tid, rid := v.eventId.value, v.taskId.value, v.runId.value;
    var h, a, c := HaltEvent(team, vid, tid, rid), AbortEvent(team, vid, tid, rid), BlockCloseEvent(team, vid, tid, rid);
    var halt := if JStr(vid) !in idx.haltedByVerdict then [h] else [];
    var abort := if (v.taskId, v.runId) !in idx.aborted then [a] else [];
    var close := if (v.taskId, v.runId) !in idx.closed then [c] else [];
    assert BlockEvents(team, idx, v) == halt + abort + close;
    KeyedUpToOne(halt, h);
    KeyedUpToOne(abort, a);
    KeyedUpToOne(close, c);
    KeyedAppend(halt, abort);
    KeyedAppend(halt + abort, close);
  }

  lemma KeyedUpToOne(s: seq<Event>, e: Event)
    requires s == [] || s == [e]
    requires e.idempotencyKey.Some?
    ensures Keyed(s)
  {
  }

  /** The concatenation of `f(x)` over the elements `x` of `s`. */
  function FlatMap<T, U>(s: seq<T>, f: T -> seq<U>): seq<U>
    decreases |s|
  {
    if s == [] then [] else FlatMap(s[..|s| - 1], f) + f(s[|s| - 1])
  }

  lemma {:induction false} FlatMapSpec<T, U>(s: seq<T>, f: T -> seq<U>)
    ensures forall u :: u in FlatMap(s, f) ==> exists i :: 0 <= i < |s| && u in f(s[i])
    ensures forall i, u :: 0 <= i < |s| && u in f(s[i]) ==> u in FlatMap(s, f)
    decreases |s|
  {
    if s != [] {
      var p := s[..|s| - 1];
      FlatMapSpec(p, f);
      assert FlatMap(s, f) == FlatMap(p, f) + f(s[|s| - 1]);
      forall i, u | 0 <= i < |s| && u in f(s[i]) ensures u in FlatMap(s, f) {
        if i < |p| { assert p[i] == s[i]; }
      }
      forall u | u in FlatMap(s, f) ensures exists i :: 0 <= i < |s| && u in f(s[i]) {
        if u in FlatMap(p, f) {
          var i :| 0 <= i < |p| && u in f(p[i]);
          assert p[i] == s[i];
        } else {
          assert u in f(s[|s| - 1]);
        }
      }
    }
  }

  /** What one event of the log contributes to the block plan. */
  function Planned(team: Team, idx: Index, v: Event): seq<Event> {
    if Enforceable(v) then BlockEvents(team, idx, v) else []
  }

  lemma {:induction false} BlockPlanFlat(team: Team, idx: Index, events: seq<Event>)
    ensures BlockPlan(team, idx, events) == FlatMap(events, v => Planned(team, idx, v))
    decreases |events|
  {
    if events != [] {
      BlockPlanFlat(team, idx, events[..|events| - 1]);
    }
  }

  /**
   * The plan holds exactly the halt, abort and close events of the
   * enforceable verdicts among the events, minus those already recorded.
   */
  lemma BlockPlanSpec(team: Team, idx: Index, events: seq<Event>)
    ensures forall e :: e in BlockPlan(team, idx, events) <==>
      exists i :: 0 <= i < |events| && Enforceable(events[i]) && e in BlockEvents(team, idx, events[i])
  {
    BlockPlanFlat(team, idx, events);
    FlatMapSpec(events, v => Planned(team, idx, v));
  }

  /** Replaying the same enforcement against the log appends nothing more. */
  lemma EnforceIdempotent(s: LogState, team: Team, idx: Index, events: seq<Event>, env: Env, now: int, now': int)
    ensures var plan := BlockPlan(team, idx, events);
      AppendAll(AppendAll(s, plan, env, now), plan, env, now') == AppendAll(s, plan, env, now)
  {
    BlockPlanKeyed(team, idx, events);
    AppendAllIdempotent(s, BlockPlan(team, idx, events), env, now, now');
  }

  /** A later event that repeats what the plan event `e` says about type, task, run, cause and payload. */
  ghost predicate Records(later: seq<Event>, e: Event) {
    exists j :: 0 <= j < |later| && later[j].etype == e.etype && later[j].taskId == e.taskId &&
      later[j].runId == e.runId && later[j].causationId == e.causationId
  }

  /** A halt citing the verdict, already indexed or among the later events, is indexed afterwards. */
  lemma HaltRecorded(events: seq<Event>, later: seq<Event>, ev: Event)
    requires Enforceable(ev)
    requires JStr(ev.eventId.value) in IndexOf(events).haltedByVerdict ||
      exists j :: 0 <= j < |later| && later[j].etype == ProjectHalted && later[j].causationId == ev.eventId
    ensures JStr(ev.eventId.value) in IndexOf(events + later).haltedByVerdict
  {
    var all := events + later;
    var v := JStr(ev.eventId.value);
    IndexHalted(events);
    IndexHalted(all);
    if v in IndexOf(events).haltedByVerdict {
      var k :| 0 <= k < |events| && events[k].etype == ProjectHalted && HaltVerdictId(events[k]) == v && Truthy(v);
      assert all[k] == events[k];
    } else {
      var j :| 0 <= j < |later| && later[j].etype == ProjectHalted && later[j].causationId == ev.eventId;
      assert all[|events| + j] == later[j];
      assert HaltVerdictId(later[j]) == v;
    }
  }

  /** An abort of the run, already indexed or among the later events, is indexed afterwards. */
  lemma AbortRecorded(events: seq<Event>, later: seq<Event>, r: RunRef)
    requires r in IndexOf(events).aborted ||
      exists j :: 0 <= j < |later| && later[j].etype == WorkerRunAborted && (later[j].taskId, later[j].runId) == r
    ensures r in IndexOf(events + later).aborted
  {
    var all := events + later;
    IndexAborted(events);
    IndexAborted(all);
    if r in IndexOf(events).aborted {
      var k :| 0 <= k < |events| && events[k].etype == WorkerRunAborted && (events[k].taskId, events[k].runId) == r;
      assert all[k] == events[k];
    } else {
      var j :| 0 <= j < |later| && later[j].etype == WorkerRunAborted && (later[j].taskId, later[j].runId) == r;
      assert all[|events| + j] == later[j];
    }
  }

  /** A close of the run, already indexed or among the later events, is indexed afterwards. */
  lemma CloseRecorded(events: seq<Event>, later: seq<Event>, r: RunRef)
    requires r in IndexOf(events).closed ||
      exists j :: 0 <= j < |later| && later[j].etype == RunClosed && (later[j].taskId, later[j].runId) == r
    ensures r in IndexOf(events + later).closed
  {
    var all := events + later;
    IndexClosed(events);
    IndexClosed(all);
    if r in IndexOf(events).closed {
      var k :| 0 <= k < |events| && events[k].etype == RunClosed && (events[k].taskId, events[k].runId) == r;
      assert all[k] == events[k];
    } else {
      var j :| 0 <= j < |later| && later[j].etype == RunClosed && (later[j].taskId, later[j].runId) == r;
      assert all[|events| + j] == later[j];
    }
  }

  /** The halt of a verdict, when planned and recorded later, is indexed afterwards. */
  lemma HaltSettles(team: Team, events: seq<Event>, later: seq<Event>, ev: Event)
    requires Enforceable(ev)
    requires var vid, tid, rid := ev.eventId.value, ev.taskId.value, ev.runId.value;
      JStr(vid) !in IndexOf(events).haltedByVerdict ==> Records(later, HaltEvent(team, vid, tid, rid))
    ensures JStr(ev.eventId.value) in IndexOf(events + later).haltedByVerdict
  {
    HaltRecorded(events, later, ev);
  }

  /** The abort of a verdict's run, when planned and recorded later, is indexed afterwards. */
  lemma AbortSettles(team: Team, events: seq<Event>, later: seq<Event>, ev: Event)
    requires Enforceable(ev)
    requires var vid, tid, rid := ev.eventId.value, ev.taskId.value, ev.runId.value;
      (ev.taskId, ev.runId) !in IndexOf(events).aborted ==> Records(later, AbortEvent(team, vid, tid, rid))
    ensures (ev.taskId, ev.runId) in IndexOf(events + later).aborted
  {
    AbortRecorded(events, later, (ev.taskId, ev.runId));
  }

  /** The close of a verdict's run, when planned and recorded later, is indexed afterwards. */
  lemma CloseSettles(team: Team, events: seq<Event>, later: seq<Event>, ev: Event)
    requires Enforceable(ev)
    requires var vid, tid, rid := ev.eventId.value, ev.taskId.value, ev.runId.value;
      (ev.taskId, ev.runId) !in IndexOf(events).closed ==> Records(later, BlockCloseEvent(team, vid, tid, rid))
    ensures (ev.taskId, ev.runId) in IndexOf(events + later).closed
  {
    CloseRecorded(events, later, (ev.taskId, ev.runId));
  }

  /** Each part of a verdict's plan that is missing from the index is among the planned events. */
  lemma PlannedParts(team: Team, events: seq<Event>, later: seq<Event>, ev: Event)
    requires Enforceable(ev)
    requires forall e :: e in BlockEvents(team, IndexOf(events), ev) ==> Records(later, e)
    ensures var idx, vid, tid, rid := IndexOf(events), ev.eventId.value, ev.taskId.value, ev.runId.value;
      && (JStr(vid) !in idx.haltedByVerdict ==> Records(later, HaltEvent(team, vid, tid, rid)))
      && ((ev.taskId, ev.runId) !in idx.aborted ==> Records(later, AbortEvent(team, vid, tid, rid)))
      && ((ev.taskId, ev.runId) !in idx.closed ==> Records(later, BlockCloseEvent(team, vid, tid, rid)))
  {
    var idx := IndexOf(events);
    var vid, tid, rid := ev.eventId.value, ev.taskId.value, ev.runId.value;
    var h, a, c := HaltEvent(team, vid, tid, rid), AbortEvent(team, vid, tid, rid), BlockCloseEvent(team, vid, tid, rid);
    var halt := if JStr(vid) !in idx.haltedByVerdict then [h] else [];
    var abort := if (ev.taskId, ev.runId) !in idx.aborted then [a] else [];
    var close := if (ev.taskId, ev.runId) !in idx.closed then [c] else [];
    assert BlockEvents(team, idx, ev) == halt + abort + close;
    InParts(halt, abort, close);
  }

  lemma InParts<T>(p: seq<T>, q: seq<T>, r: seq<T>)
    ensures forall x :: x in p || x in q || x in r ==> x in p + q + r
  {
  }

  /** Once the halt, abort and close of a verdict are indexed, it plans nothing. */
  lemma NothingLeft(team: Team, idx: Index, ev: Event)
    requires Enforceable(ev)
    requires JStr(ev.eventId.value) in idx.haltedByVerdict
    requires (ev.taskId, ev.runId) in idx.aborted && (ev.taskId, ev.runId) in idx.closed
    ensures BlockEvents(team, idx, ev) == []
  {
  }

  /** Once the later events record what one verdict planned, the verdict plans nothing more. */
  lemma VerdictSettles(team: Team, events: seq<Event>, later: seq<Event>, ev: Event)
    requires Enforceable(ev)
    requires forall e :: e in BlockEvents(team, IndexOf(events), ev) ==> Records(later, e)
    ensures BlockEvents(team, IndexOf(events + later), ev) == []
  {
    PlannedParts(team, events, later, ev);
    HaltSettles(team, events, later, ev);
    AbortSettles(team, events, later, ev);
    CloseSettles(team, events, later, ev);
    NothingLeft(team, IndexOf(events + later), ev);
  }

  /**
   * Block enforcement settles: once the log also holds what one pass
   * planned, a second pass over the same events plans nothing.
   */
  lemma EnforcementSettles(team: Team, events: seq<Event>, later: seq<Event>)
    requires forall e :: e in BlockPlan(team, IndexOf(events), events) ==> Records(later, e)
    ensures BlockPlan(team, IndexOf(events + later), events) == []
  {
    var idx, idx' := IndexOf(events), IndexOf(events + later);
    BlockPlanSpec(team, idx, events);
    BlockPlanSpec(team, idx', events);
    forall i | 0 <= i < |events| && Enforceable(events[i]) ensures BlockEvents(team, idx', events[i]) == [] {
      VerdictSettles(team, events, later, events[i]);
    }
    if BlockPlan(team, idx', events) != [] {
      assert BlockPlan(team, idx', events)[0] in BlockPlan(team, idx', events);
      assert false;
    }
  }

  // ---- the heartbeat check ----

  /** The heartbeat check, read directly from the events: running, and the latest heartbeat a whole timeout old. */
  ghost predicate HeartbeatDue(cfg: Config, events: seq<Event>, now: int) {
    var fin, start := LastOf(events, ProjectFinished), LastOf(events, ProjectStarted);
    var halt, resume := LastOf(events, ProjectHalted), LastOf(events, ProjectResumed);
    var beat := LastOf(events, WatchdogHeartbeat);
    && !(fin.Some? && (start.None? || fin.value > start.value))
    && !(halt.Some? && (resume.None? || halt.value > resume.value))
    && beat.Some? && now - beat.value >= cfg.heartbeatTimeoutSec
  }

  /**
   * The check raises at most one alert, exactly when a heartbeat is overdue
   * and the timeout is not zero; with a zero timeout a due check raises
   * ZeroDivisionError instead.
   */
  lemma HeartbeatFires(team: Team, cfg: Config, events: seq<Event>, now: int)
    ensures var plan := HeartbeatPlan(team, cfg, IndexOf(events), now);
      |plan| <= 1 && (plan != [] <==> HeartbeatDue(cfg, events, now) && cfg.heartbeatTimeoutSec != 0)
    ensures HeartbeatRaises(cfg, IndexOf(events), now) <==> HeartbeatDue(cfg, events, now) && cfg.heartbeatTimeoutSec == 0
  {
    OverdueIffDue(cfg, events, now);
    PlanIffOverdue(team, cfg, IndexOf(events), now);
  }

  lemma OverdueIffDue(cfg: Config, events: seq<Event>, now: int)
    ensures HeartbeatOverdue(cfg, IndexOf(events), now) <==> HeartbeatDue(cfg, events, now)
  {
    IndexTimes(events);
  }

  lemma PlanIffOverdue(team: Team, cfg: Config, idx: Index, now: int)
    ensures var plan := HeartbeatPlan(team, cfg, idx, now);
      |plan| <= 1 && (plan != [] <==> HeartbeatOverdue(cfg, idx, now) && cfg.heartbeatTimeoutSec != 0)
  {
  }

  /**
   * A timeout that is not positive makes every check of a running project
   * due once a heartbeat not later than now is known: a negative one
   * alerts, a zero one raises.
   */
  lemma NonPositiveTimeoutAlwaysDue(team: Team, cfg: Config, idx: Index, now: int)
    requires cfg.heartbeatTimeoutSec <= 0 && !Stopped(idx)
    requires idx.lastHeartbeat.Some? && idx.lastHeartbeat.value <= now
    ensures cfg.heartbeatTimeoutSec < 0 ==> |HeartbeatPlan(team, cfg, idx, now)| == 1
    ensures cfg.heartbeatTimeoutSec == 0 ==> HeartbeatRaises(cfg, idx, now) && HeartbeatPlan(team, cfg, idx, now) == []
  {
  }

  /**
   * Within one time window the alert is raised once: a second check in the
   * same window, on any events, appends nothing after one that fired.
   */
  lemma HeartbeatOncePerWindow(s: LogState, team: Team, cfg: Config, idx1: Index, now1: int, idx2: Index, now2: int, env: Env)
    requires cfg.heartbeatTimeoutSec != 0
    requires HeartbeatOverdue(cfg, idx1, now1) && Window(cfg, now1) == Window(cfg, now2)
    ensures var s1 := AppendAll(s, HeartbeatPlan(team, cfg, idx1, now1), env, now1);
      AppendAll(s1, HeartbeatPlan(team, cfg, idx2, now2), env, now2) == s1
  {
    var p1 := HeartbeatPlan(team, cfg, idx1, now1);
    AppendAllIndexes(s, p1, env, now1);
    AppendAllKnown(AppendAll(s, p1, env, now1), HeartbeatPlan(team, cfg, idx2, now2), env, now2);
  }

  /** Different windows give different alert keys, so every window can raise its own alert. */
  lemma UnresponsiveKeyInjective(team: Team, w1: int, w2: int)
    requires UnresponsiveKey(team, w1) == UnresponsiveKey(team, w2)
    ensures w1 == w2
  {
    var pre := team.project + ":WATCHDOG_UNRESPONSIVE:";
    var a, b := Text.IntToString(w1), Text.IntToString(w2);
    assert pre + a == UnresponsiveKey(team, w1);
    assert (pre + a)[|pre|..] == a && (pre + b)[|pre|..] == b;
    Text.IntToStringInjective(w1, w2);
  }

  // ---- dispatch ----

  lemma {:induction false} FilterSpec<T>(s: seq<T>, p: T -> bool)
    ensures forall x :: x in Filter(s, p) <==> x in s && p(x)
    decreases |s|
  {
    if s != [] {
      var init := s[..|s| - 1];
      FilterSpec(init, p);
      assert s == init + [s[|s| - 1]];
    }
  }

  lemma {:induction false} CountReadyFilter(tasks: seq<Reducer.TaskOut>)
    ensures CountReady(tasks) == |Filter(tasks, Ready)|
    decreases |tasks|
  {
    if tasks != [] {
      CountReadyFilter(tasks[..|tasks| - 1]);
    }
  }

  /**
   * Dispatch starts one run per ready task, in list order: the `k`-th
   * ready task gets the intent and start of run `runs(k)`, and nothing else
   * is appended.
   */
  lemma {:induction false} DispatchPlanPairs(team: Team, tasks: seq<Reducer.TaskOut>, runs: nat -> string, spawned: nat -> Json)
    ensures var ready, plan := Filter(tasks, Ready), DispatchPlan(team, tasks, runs, spawned);
      && |plan| == 2 * |ready|
      && forall k :: 0 <= k < |ready| ==>
           plan[2 * k .. 2 * k + 2] == DispatchEvents(team, ready[k].taskId, runs(k), spawned(k))
    decreases |tasks|
  {
    CountReadyFilter(tasks);
    if tasks != [] {
      var init := tasks[..|tasks| - 1];
      DispatchPlanPairs(team, init, runs, spawned);
      CountReadyFilter(init);
      var t := tasks[|tasks| - 1];
      var ready0, plan0 := Filter(init, Ready), DispatchPlan(team, init, runs, spawned);
      var extra: seq<Reducer.TaskOut> := if Ready(t) then [t] else [];
      var pair := (x: Reducer.TaskOut, k: nat) => DispatchEvents(team, x.taskId, runs(k), spawned(k));
      var tail: seq<Event> := if Ready(t) then pair(t, |ready0|) else [];
      assert Filter(tasks, Ready) == ready0 + extra;
      assert DispatchPlan(team, tasks, runs, spawned) == plan0 + tail;
      PairsExtend(ready0, plan0, extra, tail, pair);
    }
  }

  /** A task is dispatched exactly when it is listed, pending and without gates. */
  lemma DispatchedTasks(tasks: seq<Reducer.TaskOut>)
    ensures forall t :: t in Filter(tasks, Ready) <==>
      t in tasks && t.OpenOut? && t.state == Reducer.Pending && t.gates == []
  {
    FilterSpec(tasks, Ready);
  }

  // ---- worker timeouts ----

  /** `FirstStart` is the timestamp of the earliest timed start of the run, if any. */
  lemma {:induction false} FirstStartSpec(events: seq<Event>, tid: string, rid: string)
    ensures FirstStart(events, tid, rid).None? <==> forall i :: 0 <= i < |events| ==> !TimedStart(events[i], tid, rid)
    ensures FirstStart(events, tid, rid).Some? ==>
      exists i :: 0 <= i < |events| && TimedStart(events[i], tid, rid) && events[i].at == FirstStart(events, tid, rid) &&
        forall j :: 0 <= j < i ==> !TimedStart(events[j], tid, rid)
    decreases |events|
  {
    if events != [] {
      var init := events[..|events| - 1];
      FirstStartSpec(init, tid, rid);
      assert forall i :: 0 <= i < |init| ==> init[i] == events[i];
      if FirstStart(init, tid, rid).Some? {
        var i :| 0 <= i < |init| && TimedStart(init[i], tid, rid) && init[i].at == FirstStart(init, tid, rid) &&
          forall j :: 0 <= j < i ==> !TimedStart(init[j], tid, rid);
        assert TimedStart(events[i], tid, rid);
      }
    }
  }

  /** What one listed task contributes to the `timed_out` list. */
  function TimedOutOf(t: Reducer.TaskOut, events: seq<Event>, now: int, cfg: Config): seq<(string, string)> {
    if Overrunning(t, events, now, cfg) then [(t.taskId, t.runId.value)] else []
  }

  lemma {:induction false} TimedOutFlat(tasks: seq<Reducer.TaskOut>, events: seq<Event>, now: int, cfg: Config)
    ensures TimedOut(tasks, events, now, cfg) == FlatMap(tasks, t => TimedOutOf(t, events, now, cfg))
    decreases |tasks|
  {
    if tasks != [] {
      TimedOutFlat(tasks[..|tasks| - 1], events, now, cfg);
    }
  }

  /** A run is timed out exactly when it is the current run of a running task that overran. */
  lemma TimedOutSpec(tasks: seq<Reducer.TaskOut>, events: seq<Event>, now: int, cfg: Config)
    ensures forall p :: p in TimedOut(tasks, events, now, cfg) <==>
      exists i :: 0 <= i < |tasks| && Overrunning(tasks[i], events, now, cfg) && p == (tasks[i].taskId, tasks[i].runId.value)
  {
    TimedOutFlat(tasks, events, now, cfg);
    FlatMapSpec(tasks, t => TimedOutOf(t, events, now, cfg));
  }

  /** Every timed-out run gets its failure and then its close, in list order. */
  lemma {:induction false} TimeoutPlanPairs(team: Team, pairs: seq<(string, string)>)
    ensures forall k :: 0 <= k < |pairs| ==>
      TimeoutPlan(team, pairs)[2 * k .. 2 * k + 2] == TimeoutEvents(team, pairs[k].0, pairs[k].1)
    decreases |pairs|
  {
    if pairs != [] {
      var init := pairs[..|pairs| - 1];
      TimeoutPlanPairs(team, init);
      var last := [pairs[|pairs| - 1]];
      var pair := (x: (string, string), k: nat) => TimeoutEvents(team, x.0, x.1);
      assert pairs == init + last;
      PairsExtend(init, TimeoutPlan(team, init), last, pair(last[0], |init|), pair);
    }
  }

  // ---- auto-retry ----

  /** The tasks auto-retry picks, in list order. */
  function RetryableTasks(tasks: seq<Reducer.TaskOut>, retries: string -> nat, cfg: Config): seq<Reducer.TaskOut>
    decreases |tasks|
  {
    if tasks == [] then []
    else
      var t := tasks[|tasks| - 1];
      RetryableTasks(tasks[..|tasks| - 1], retries, cfg) + (if Retryable(t, retries, cfg) then [t] else [])
  }

  /** Auto-retry picks exactly the blocked tasks below the retry limit, in list order. */
  lemma {:induction false} RetryableTasksSpec(tasks: seq<Reducer.TaskOut>, retries: string -> nat, cfg: Config)
    ensures |RetryableTasks(tasks, retries, cfg)| == CountRetryable(tasks, retries, cfg)
    ensures forall t :: t in RetryableTasks(tasks, retries, cfg) <==> t in tasks && Retryable(t, retries, cfg)
    decreases |tasks|
  {
    if tasks != [] {
      var init := tasks[..|tasks| - 1];
      RetryableTasksSpec(init, retries, cfg);
      assert tasks == init + [tasks[|tasks| - 1]];
    }
  }

  /** The record of a retry counts the retry it is, which never exceeds the limit. */
  lemma RetryCounted(team: Team, t: Reducer.TaskOut, retries: string -> nat, run: string, cfg: Config)
    requires Retryable(t, retries, cfg)
    ensures 1 <= retries(t.taskId) + 1 <= cfg.maxRetries
    ensures var record := RetryEvents(team, t.taskId, t.runId, retries(t.taskId), run)[1];
      && record.etype == TaskRetried && record.taskId == Some(t.taskId) && record.runId == Some(run)
      && record.payload[0] == ("retryCount", JInt(retries(t.taskId) + 1))
  {
  }

  /**
   * Auto-retry starts one run per retryable task in
   * list order: the `k`-th gets run `runs(k)` and a TASK_RETRIED record.
   */
  lemma {:induction false} RetryPlanPairs(team: Team, tasks: seq<Reducer.TaskOut>, retries: string -> nat, runs: nat -> string, cfg: Config)
    ensures var rt, plan := RetryableTasks(tasks, retries, cfg), RetryPlan(team, tasks, retries, runs, cfg);
      && |plan| == 2 * |rt|
      && forall k :: 0 <= k < |rt| ==>
           (rt[k].OpenOut? && plan[2 * k .. 2 * k + 2] == RetryEvents(team, rt[k].taskId, rt[k].runId, retries(rt[k].taskId), runs(k)))
    decreases |tasks|
  {
    RetryableTasksSpec(tasks, retries, cfg);
    if tasks != [] {
      var init := tasks[..|tasks| - 1];
      RetryPlanPairs(team, init, retries, runs, cfg);
      RetryableTasksSpec(init, retries, cfg);
      var t := tasks[|tasks| - 1];
      var rt0, plan0 := RetryableTasks(init, retries, cfg), RetryPlan(team, init, retries, runs, cfg);
      var extra: seq<Reducer.TaskOut> := if Retryable(t, retries, cfg) then [t] else [];
      var pair := (x: Reducer.TaskOut, k: nat) =>
        if x.OpenOut? then RetryEvents(team, x.taskId, x.runId, retries(x.taskId), runs(k)) else [];
      var tail: seq<Event> := if Retryable(t, retries, cfg) then pair(t, |rt0|) else [];
      assert RetryableTasks(tasks, retries, cfg) == rt0 + extra;
      assert RetryPlan(team, tasks, retries, runs, cfg) == plan0 + tail;
      PairsExtend(rt0, plan0, extra, tail, pair);
      forall k | 0 <= k < |rt0 + extra| ensures (rt0 + extra)[k].OpenOut? {
        assert (rt0 + extra)[k] in RetryableTasks(tasks, retries, cfg);
      }
    }
  }

  /** Appending at most one element and its pair keeps the plan made of consecutive pairs. */
  lemma PairsExtend<T, U>(rt0: seq<T>, plan0: seq<U>, extra: seq<T>, tail: seq<U>, pair: (T, nat) -> seq<U>)
    requires |plan0| == 2 * |rt0|
    requires forall k :: 0 <= k < |rt0| ==> plan0[2 * k .. 2 * k + 2] == pair(rt0[k], k)
    requires |extra| <= 1 && |tail| == 2 * |extra|
    requires |extra| == 1 ==> tail == pair(extra[0], |rt0|)
    ensures |plan0 + tail| == 2 * |rt0 + extra|
    ensures forall k :: 0 <= k < |rt0 + extra| ==> (plan0 + tail)[2 * k .. 2 * k + 2] == pair((rt0 + extra)[k], k)
  {
    forall k | 0 <= k < |rt0 + extra|
      ensures (plan0 + tail)[2 * k .. 2 * k + 2] == pair((rt0 + extra)[k], k)
    {
      if k < |rt0| {
        PairOfPrefix(plan0, tail, k);
      } else {
        assert (plan0 + tail)[2 * k .. 2 * k + 2] == tail;
      }
    }
  }

  /** A pair inside the first part of a concatenation. */
  lemma PairOfPrefix<T>(a: seq<T>, b: seq<T>, k: nat)
    requires 2 * k + 2 <= |a|
    ensures (a + b)[2 * k .. 2 * k + 2] == a[2 * k .. 2 * k + 2]
  {
  }

  // ---- restart reconciliation ----

  /** The runs that events with a truthy task and run id name. */
  ghost function EventRuns(events: seq<Event>): set<(string, string)> {
    set i | 0 <= i < |events| && Text.Truthy(events[i].taskId) && Text.Truthy(events[i].runId) ::
      (events[i].taskId.value, events[i].runId.value)
  }

  ghost function InfoRuns(infos: seq<RunInfo>): set<(string, string)> {
    set i | 0 <= i < |infos| :: (infos[i].taskId, infos[i].runId)
  }

  /** No run has two entries. */
  ghost predicate DistinctRuns(infos: seq<RunInfo>) {
    forall i, j :: 0 <= i < j < |infos| ==> (infos[i].taskId, infos[i].runId) != (infos[j].taskId, infos[j].runId)
  }

  lemma TrackRuns(infos: seq<RunInfo>, e: Event)
    requires DistinctRuns(infos)
    ensures DistinctRuns(Track(infos, e))
    ensures InfoRuns(Track(infos, e)) ==
      InfoRuns(infos) + (if Text.Truthy(e.taskId) && Text.Truthy(e.runId) then {(e.taskId.value, e.runId.value)} else {})
  {
    if Text.Truthy(e.taskId) && Text.Truthy(e.runId) {
      var tid, rid := e.taskId.value, e.runId.value;
      match FindRun(infos, tid, rid)
      case Some(k) =>
        var x := RunUpdate(infos[k], e);
        SameRuns(infos, infos[k := x]);
        assert (infos[k].taskId, infos[k].runId) in InfoRuns(infos);
      case None =>
        var x := RunUpdate(NewInfo(tid, rid), e);
        assert (tid, rid) !in InfoRuns(infos);
        AppendRun(infos, x);
    }
  }

  /** Entries with the same runs, position by position, name the same runs. */
  lemma SameRuns(a: seq<RunInfo>, b: seq<RunInfo>)
    requires |a| == |b|
    requires forall i :: 0 <= i < |a| ==> a[i].taskId == b[i].taskId && a[i].runId == b[i].runId
    ensures InfoRuns(a) == InfoRuns(b)
    ensures DistinctRuns(a) ==> DistinctRuns(b)
  {
    forall x | x in InfoRuns(b) ensures x in InfoRuns(a) {
      var i :| 0 <= i < |b| && x == (b[i].taskId, b[i].runId);
      assert x == (a[i].taskId, a[i].runId);
    }
  }

  /** An entry for a run not yet listed adds that run and keeps the runs distinct. */
  lemma AppendRun(infos: seq<RunInfo>, x: RunInfo)
    requires DistinctRuns(infos) && (x.taskId, x.runId) !in InfoRuns(infos)
    ensures DistinctRuns(infos + [x])
    ensures InfoRuns(infos + [x]) == InfoRuns(infos) + {(x.taskId, x.runId)}
  {
    var t := infos + [x];
    assert t[|infos|] == x;
    forall i, j | 0 <= i < j < |t|
      ensures (t[i].taskId, t[i].runId) != (t[j].taskId, t[j].runId)
    {
      assert t[i] == infos[i];
      if j < |infos| {
        assert t[j] == infos[j];
      }
    }
    forall y | y in InfoRuns(t) ensures y in InfoRuns(infos) + {(x.taskId, x.runId)} {
      var i :| 0 <= i < |t| && y == (t[i].taskId, t[i].runId);
      if i < |infos| {
        assert t[i] == infos[i];
      }
    }
    forall y | y in InfoRuns(infos) ensures y in InfoRuns(t) {
      var i :| 0 <= i < |infos| && y == (infos[i].taskId, infos[i].runId);
      assert t[i] == infos[i];
    }
  }

  /** `run_info` has exactly one entry per run the events name. */
  lemma {:induction false} RunsOfSpec(events: seq<Event>)
    ensures DistinctRuns(RunsOf(events))
    ensures InfoRuns(RunsOf(events)) == EventRuns(events)
    decreases |events|
  {
    if events != [] {
      var init := events[..|events| - 1];
      var e := events[|events| - 1];
      RunsOfSpec(init);
      TrackRuns(RunsOf(init), e);
      assert forall i :: 0 <= i < |init| ==> init[i] == events[i];
      var want := EventRuns(init) + (if Text.Truthy(e.taskId) && Text.Truthy(e.runId) then {(e.taskId.value, e.runId.value)} else {});
      forall x | x in EventRuns(events) ensures x in want {
        var i :| 0 <= i < |events| && Text.Truthy(events[i].taskId) && Text.Truthy(events[i].runId) &&
          x == (events[i].taskId.value, events[i].runId.value);
        if i < |init| { assert init[i] == events[i]; }
      }
      forall x | x in EventRuns(init) ensures x in EventRuns(events) {
        var i :| 0 <= i < |init| && Text.Truthy(init[i].taskId) && Text.Truthy(init[i].runId) &&
          x == (init[i].taskId.value, init[i].runId.value);
        assert init[i] == events[i];
      }
    }
  }

  /** Reconciling one run leaves exactly its reconciliation keys added to the index. */
  lemma ReconcileOneKeys(s: LogState, team: Team, info: RunInfo, env: Env, now: int)
    ensures ReconcileOne(s, team, info, env, now).keys.Keys == s.keys.Keys + ReconcileKeys(team, info, now)
  {
    if !info.closed {
      if Decided(info) {
        var e := RecoveredClose(team, info);
        assert e.idempotencyKey == Some(CloseKey(team, info.taskId, info.runId));
        NextKeys(s, e, env, now);
      } else if Stale(info, now) {
        StaleKeys(s, team, info, env, now);
      }
    }
  }

  /** Failing and closing a stale run adds its failure key and its close key. */
  lemma StaleKeys(s: LogState, team: Team, info: RunInfo, env: Env, now: int)
    requires !info.closed && !Decided(info) && Stale(info, now)
    ensures ReconcileOne(s, team, info, env, now).keys.Keys
      == s.keys.Keys + {StaleFailKey(team, info.taskId, info.runId), CloseKey(team, info.taskId, info.runId)}
  {
    var f := StaleUnfold(s, team, info, env, now);
    var s1 := Next(s, StaleFailed(team, info), env, now);
    StaleEventKeys(team, info, f);
    NextKeys(s, StaleFailed(team, info), env, now);
    NextKeys(s1, StaleClose(team, info, f), env, now);
  }

  /** Reconciling a stale run appends its failure and then a close that cites some failure id. */
  lemma StaleUnfold(s: LogState, team: Team, info: RunInfo, env: Env, now: int) returns (failedId: Option<string>)
    requires !info.closed && !Decided(info) && Stale(info, now)
    ensures ReconcileOne(s, team, info, env, now)
      == Next(Next(s, StaleFailed(team, info), env, now), StaleClose(team, info, failedId), env, now)
  {
    var (s1, r) := AppendSpec(s, StaleFailed(team, info), env, now);
    failedId := if r.Appended? then r.event.eventId else None;
  }

  lemma StaleEventKeys(team: Team, info: RunInfo, failedId: Option<string>)
    ensures StaleFailed(team, info).idempotencyKey == Some(StaleFailKey(team, info.taskId, info.runId))
    ensures StaleClose(team, info, failedId).idempotencyKey == Some(CloseKey(team, info.taskId, info.runId))
  {
  }

  lemma {:induction false} ReconcileAllKeys(s: LogState, team: Team, infos: seq<RunInfo>, env: Env, now: int)
    ensures ReconcileAll(s, team, infos, env, now).keys.Keys == s.keys.Keys + AllReconcileKeys(team, infos, now)
    decreases |infos|
  {
    if infos != [] {
      var init := infos[..|infos| - 1];
      ReconcileAllKeys(s, team, init, env, now);
      ReconcileOneKeys(ReconcileAll(s, team, init, env, now), team, infos[|infos| - 1], env, now);
    }
  }

  /** A log that already holds every reconciliation key is left as it is. */
  lemma {:induction false} ReconcileSettled(s: LogState, team: Team, infos: seq<RunInfo>, env: Env, now: int)
    requires AllReconcileKeys(team, infos, now) <= s.keys.Keys
    ensures ReconcileAll(s, team, infos, env, now) == s
    decreases |infos|
  {
    if infos != [] {
      var init := infos[..|infos| - 1];
      var info := infos[|infos| - 1];
      ReconcileSettled(s, team, init, env, now);
      if !info.closed {
        if Decided(info) {
          KnownKeyDeduped(s, RecoveredClose(team, info), env, now);
        } else if Stale(info, now) {
          KnownKeyDeduped(s, StaleFailed(team, info), env, now);
          KnownKeyDeduped(s, StaleClose(team, info, None), env, now);
        }
      }
    }
  }

  /** Reconciling twice with the same run table and clock is reconciling once. */
  lemma ReconcileIdempotent(s: LogState, team: Team, infos: seq<RunInfo>, env: Env, now: int)
    ensures var s1 := ReconcileAll(s, team, infos, env, now);
      ReconcileAll(s1, team, infos, env, now) == s1
  {
    var s1 := ReconcileAll(s, team, infos, env, now);
    ReconcileAllKeys(s, team, infos, env, now);
    ReconcileSettled(s1, team, infos, env, now);
  }

  // ---- message validation ----

  /** The lock table of a status never holds two runs for one task. */
  lemma LockOfFinds(locks: seq<(string, Option<string>)>, tid: string, v: Option<string>)
    requires (tid, v) in locks
    requires forall p, q :: p in locks && q in locks && p.0 == q.0 ==> p.1 == q.1
    ensures LockOf(locks, tid) == v
  {
    var k :| 0 <= k < |locks| && locks[k] == (tid, v);
    LockOfLast(locks, tid, k);
  }

  lemma {:induction false} LockOfLast(locks: seq<(string, Option<string>)>, tid: string, k: int)
    requires 0 <= k < |locks| && locks[k].0 == tid
    requires forall p, q :: p in locks && q in locks && p.0 == q.0 ==> p.1 == q.1
    ensures LockOf(locks, tid) == locks[k].1
    decreases |locks|
  {
    var n := |locks| - 1;
    if locks[n].0 != tid {
      var init := locks[..n];
      assert init[k] == locks[k];
      assert forall p :: p in init ==> p in locks;
      LockOfLast(init, tid, k);
    } else {
      assert locks[n] in locks && locks[k] in locks;
    }
  }

  /**
   * A worker or watchdog message about a task is accepted exactly when it
   * names, with a truthy run id, the one run the replayed events leave open
   * for the task.
   */
  lemma AcceptedIffOnlyOpenRun(events: seq<Event>, actor: string, tid: string, runId: Option<string>)
    requires tid != "" && RunBound(actor)
    ensures var runs := Reducer.Fold(Reducer.Init, Reducer.SortEvents(events)).openRuns.values;
      Accepts(actor, Some(tid), runId, LockOf(Reducer.Reduce(events).locks.tasks, tid)) <==>
        Text.Truthy(runId) && tid in runs && runs[tid] == [runId]
  {
    var a := Reducer.Fold(Reducer.Init, Reducer.SortEvents(events));
    Reducer.FoldValid(Reducer.Init, Reducer.SortEvents(events));
    ReducerProperties.FinalizeLocks(a);
    var locks := Reducer.Reduce(events).locks.tasks;
    var runs := a.openRuns.values;
    assert Reducer.Reduce(events) == Reducer.Finalize(a);
    var expected := LockOf(locks, tid);
    if tid in runs && runs[tid] == [runId] {
      assert (tid, runId) in locks;
      LockOfFinds(locks, tid, runId);
    }
    if Text.Truthy(runId) && runId == expected {
      assert (tid, expected) in locks;
    }
  }

  /** A rejected message is recorded once: the same rejection again appends nothing. */
  lemma IgnoredOnce(s: LogState, team: Team, actor: string, tid: string, runId: Option<string>, messageType: string,
                    expected: Option<string>, digest: string, env: Env, now: int, now': int)
    ensures var e := IgnoredEvent(team, actor, tid, runId, messageType, expected, digest);
      Next(Next(s, e, env, now), e, env, now') == Next(s, e, env, now)
  {
    var e := IgnoredEvent(team, actor, tid, runId, messageType, expected, digest);
    NextKeys(s, e, env, now);
    KnownKeyDeduped(Next(s, e, env, now), e, env, now');
  }

  // ---- result aggregation ----

  function OutcomeList(t: Reducer.TaskOut): seq<Outcome> {
    var o := OutcomeOf(t);
    if o.Some? then [o.value] else []
  }

  lemma {:induction false} AggregateFlat(tasks: seq<Reducer.TaskOut>)
    ensures Aggregate(tasks) == FlatMap(tasks, OutcomeList)
    decreases |tasks|
  {
    if tasks != [] {
      AggregateFlat(tasks[..|tasks| - 1]);
    }
  }

  /**
   * The results are the reports of the done tasks that name a run and of
   * the blocked tasks; a done task's report carries no result, verdict,
   * evidence or quality, because the status lists done tasks without them.
   */
  lemma AggregateSpec(tasks: seq<Reducer.TaskOut>)
    ensures forall o :: o in Aggregate(tasks) <==> exists i :: 0 <= i < |tasks| && OutcomeOf(tasks[i]) == Some(o)
    ensures forall o :: o in Aggregate(tasks) ==>
      && (o.state == "done" || o.state == "blocked")
      && (o.state == "done" ==> o.result == [] && o.verdict == JNull && o.evidencePath == JNull && o.quality == JNull)
  {
    AggregateFlat(tasks);
    FlatMapSpec(tasks, OutcomeList);
    forall o | o in Aggregate(tasks) ensures exists i :: 0 <= i < |tasks| && OutcomeOf(tasks[i]) == Some(o) {
      var i :| 0 <= i < |tasks| && o in OutcomeList(tasks[i]);
    }
  }

  /** A task is reported exactly when it is done with a run id, or blocked. */
  lemma OutcomeOfSpec(t: Reducer.TaskOut)
    ensures OutcomeOf(t).Some? <==> (t.DoneOut? && t.lastRunId.Some?) || (t.OpenOut? && t.state == Reducer.Blocked)
    ensures OutcomeOf(t).Some? ==>
      OutcomeOf(t).value.taskId == t.taskId && (OutcomeOf(t).value.state == "done" <==> t.DoneOut?)
  {
  }
}
