/**
 * Three orchestrator policies as the source spells them, where the
 * spelling raises a Python exception instead of doing what the policy is
 * for, and two watchdog checks whose tests let through what they are meant
 * to catch. Each is set beside the corrected behaviour the rest of the
 * model uses.
 */
module AsWritten {
  import opened Wrappers
  import Text
  import opened Json
  import opened Protocol
  import opened StateManager
  import opened Policies
  import W = Watchdog

  const NameErrorRunId := "NameError: name 'run_id' is not defined"
  const TypeErrorRunId := "TypeError: _build_event() got an unexpected keyword argument 'run_id'"

  /** A BLOCK verdict that passes the first two tests of the guard, which reach the undefined name. */
  predicate ReachesRunId(e: Event) {
    BlockVerdict(e) && Text.Truthy(e.eventId) && Text.Truthy(e.taskId)
  }

  /**
   * `_enforce_block_sequence` as written: the guard tests `run_id`, a name
   * the method never binds (the module imports the generator as
   * `run_id_gen`), so the first BLOCK verdict with an event id and a task
   * id raises before anything is appended.
   */
  function EnforceAsWritten(s: LogState, events: seq<Event>): (r: Completion<LogState>)
    decreases |events|
  {
    if events == [] then Returned(s)
    else if ReachesRunId(events[0]) then Raises(NameErrorRunId)
    else EnforceAsWritten(s, events[1..])
  }

  /** As written, enforcement never changes the log, and it fails exactly when a verdict reaches the guard. */
  lemma {:induction false} EnforceAsWrittenInert(s: LogState, events: seq<Event>)
    ensures EnforceAsWritten(s, events).Returned? ==> EnforceAsWritten(s, events).value == s
    ensures EnforceAsWritten(s, events).Raises? <==> exists i :: 0 <= i < |events| && ReachesRunId(events[i])
    decreases |events|
  {
    if events != [] {
      EnforceAsWrittenInert(s, events[1..]);
      if !ReachesRunId(events[0]) {
        forall i | 0 < i < |events| ensures events[i] == events[1..][i - 1] { }
        if exists i :: 0 <= i < |events| && ReachesRunId(events[i]) {
          var i :| 0 <= i < |events| && ReachesRunId(events[i]);
          assert ReachesRunId(events[1..][i - 1]);
        }
      }
    }
  }

  /** One BLOCK verdict for task `t1`, run `r1`. */
  const SampleVerdict := Event(WatchdogVerdict, Some("watchdog"), Some("p"), [("verdict", JStr("BLOCK"))], Some("k"),
                               Some("t1"), Some("r1"), Some("r1"), None, None, Some("v1"), Some(1), Some(1), Some(0), None)

  /**
   * On that one verdict the source raises and appends nothing, where the
   * corrected enforcement halts the project and aborts and closes the run.
   */
  lemma EnforceAsWrittenCounterexample(team: Team)
    ensures EnforceAsWritten(Empty, [SampleVerdict]).Raises?
    ensures |BlockPlan(team, IndexOf([SampleVerdict]), [SampleVerdict])| == 3
  {
    var e := SampleVerdict;
    assert Get(e.payload, "verdict") == JStr("BLOCK");
    assert IndexOf([e]) == IndexStep(NoIndex, e) by {
      assert [e][..0] == [];
    }
    assert IndexOf([e]) == NoIndex;
    assert [e][..0] == [];
  }

  /**
   * `_watchdog_heartbeat` as written: it passes `run_id=None` to
   * `_build_event`, whose keyword is `run_id_str`, so the call raises
   * exactly when the alert is due; with a zero timeout the window's
   * division raises first.
   */
  function HeartbeatAsWritten(cfg: Config, idx: Index, now: int): (r: Completion<seq<Event>>) {
    if HeartbeatRaises(cfg, idx, now) then Raises("ZeroDivisionError")
    else if HeartbeatOverdue(cfg, idx, now) then Raises(TypeErrorRunId)
    else Returned([])
  }

  /** As written, the heartbeat check never raises the alert: it fails exactly when the corrected check fires. */
  lemma HeartbeatAsWrittenNeverAlerts(team: Team, cfg: Config, idx: Index, now: int)
    ensures HeartbeatAsWritten(cfg, idx, now).Returned? ==> HeartbeatAsWritten(cfg, idx, now).value == []
    ensures HeartbeatAsWritten(cfg, idx, now).Raises? <==>
      HeartbeatPlan(team, cfg, idx, now) != [] || HeartbeatRaises(cfg, idx, now)
  {
  }

  /** A heartbeat at time 0 under the default timeout, checked at time 180. */
  lemma HeartbeatAsWrittenCounterexample(team: Team)
    ensures var idx := NoIndex.(lastHeartbeat := Some(0));
      HeartbeatAsWritten(Defaults, idx, 180).Raises? && |HeartbeatPlan(team, Defaults, idx, 180)| == 1
  {
  }

  /**
   * `validate_incoming` as written: a rejected worker or watchdog message
   * builds its MESSAGE_IGNORED event with `run_id=expected`, which
   * `_build_event` does not accept, so the call raises where it would
   * return false.
   */
  function ValidateAsWritten(actor: string, taskId: Option<string>, runId: Option<string>, expected: Option<string>): (r: Completion<bool>) {
    if !Text.Truthy(taskId) then Returned(true)
    else if actor == "worker" || actor == "watchdog" then
      if !Text.Truthy(runId) || runId != expected then Raises(TypeErrorRunId) else Returned(true)
    else Returned(true)
  }

  /** As written, validation never answers false: it raises exactly on the messages the corrected one refuses. */
  lemma ValidateAsWrittenNeverRefuses(actor: string, taskId: Option<string>, runId: Option<string>, expected: Option<string>)
    ensures ValidateAsWritten(actor, taskId, runId, expected).Returned? ==> ValidateAsWritten(actor, taskId, runId, expected).value
    ensures ValidateAsWritten(actor, taskId, runId, expected).Raises? <==> !Accepts(actor, taskId, runId, expected)
  {
  }

  /** A worker message for task `t1` from run `r2` while `r1` holds the lock. */
  lemma ValidateAsWrittenCounterexample()
    ensures ValidateAsWritten("worker", Some("t1"), Some("r2"), Some("r1")).Raises?
    ensures !Accepts("worker", Some("t1"), Some("r2"), Some("r1"))
  {
  }

  /** A resolver under which every path is already normalised. */
  function AsGiven(p: string): W.Resolution {
    W.Resolved(p)
  }

  /**
   * As written, the path check reports nothing the intended one does not:
   * the prefix test only admits more paths than the component test.
   */
  lemma PrefixIssuesIncluded(ps: W.PathSafety, resolve: string -> W.Resolution)
    ensures forall x :: x in W.PathIssues(W.Prefix, ps, resolve) ==> x in W.PathIssues(W.Component, ps, resolve)
  {
    var base := resolve(ps.repoRoot);
    var pwd := resolve(ps.pwd);
    if pwd.Resolved? && base.Resolved? {
      W.ComponentWithinPrefix(pwd.path, base.path);
    }
    assert W.PwdIssue(W.Prefix, ps, resolve).Some? ==> W.PwdIssue(W.Component, ps, resolve) == W.PwdIssue(W.Prefix, ps, resolve);
    W.FileIssuesSpec(W.Prefix, ps.repoRoot, ps.changedFiles, resolve);
    W.FileIssuesSpec(W.Component, ps.repoRoot, ps.changedFiles, resolve);
    forall i | 0 <= i < |ps.changedFiles| && W.FileIssue(W.Prefix, ps.repoRoot, ps.changedFiles[i], resolve).Some?
      ensures W.FileIssue(W.Component, ps.repoRoot, ps.changedFiles[i], resolve) == W.FileIssue(W.Prefix, ps.repoRoot, ps.changedFiles[i], resolve)
    {
      var full := resolve(W.FileTarget(ps.repoRoot, ps.changedFiles[i]));
      if full.Resolved? && base.Resolved? {
        W.ComponentWithinPrefix(full.path, base.path);
      }
    }
  }

  /** A workspace in a sibling directory whose name extends the root's. */
  const SiblingReport := W.PathSafety("/repo-evil", "/repo", [])
  const SiblingEvidence := W.EvidenceInfo("evidence.md", "evidence.patch", "sha256:e", "sha256:p", Some(SiblingReport))

  lemma SiblingContainment()
    ensures W.Contained(W.Prefix, "/repo-evil", "/repo")
    ensures !W.Contained(W.Component, "/repo-evil", "/repo")
  {
    assert "/repo-evil"[..5] == "/repo";
    assert "/repo-evil"[..6][5] != "/repo/"[5];
  }

  lemma SiblingIssues()
    ensures W.PathIssues(W.Prefix, SiblingReport, AsGiven) == []
    ensures W.PathIssues(W.Component, SiblingReport, AsGiven) == ["pwd outside repo: /repo-evil"]
  {
    SiblingContainment();
    assert W.PwdIssue(W.Component, SiblingReport, AsGiven) == Some("pwd outside repo: " + "/repo-evil");
    assert "pwd outside repo: " + "/repo-evil" == "pwd outside repo: /repo-evil";
  }

  /**
   * As written, a working directory of "/repo-evil" passes as inside
   * "/repo"; the intended check blocks it.
   */
  lemma PrefixContainmentCounterexample()
    ensures W.PathIssues(W.Prefix, SiblingReport, AsGiven) == []
    ensures W.PathIssues(W.Component, SiblingReport, AsGiven) == ["pwd outside repo: /repo-evil"]
    ensures W.Evaluation(W.SourceReading, SiblingEvidence, W.DefaultRequired, W.DigestOk, W.DigestOk, AsGiven).verdict == W.Pass
    ensures W.Evaluation(W.Intended, SiblingEvidence, W.DefaultRequired, W.DigestOk, W.DigestOk, AsGiven).verdict == W.Block
  {
    SiblingIssues();
    SiblingContainment();
    DefaultFieldsNeverMatch(SiblingEvidence);
    W.PassIff(W.SourceReading, SiblingEvidence, W.DefaultRequired, W.DigestOk, W.DigestOk, AsGiven);
    W.PathSafeIff(W.Prefix, SiblingReport, AsGiven);
    W.EscapeBlocks(W.Intended, SiblingEvidence, W.DefaultRequired, W.DigestOk, W.DigestOk, AsGiven);
  }

  /**
   * As written, the default required-field list never matches a field:
   * it is spelled as the submission spells the keys, and the check compares
   * it with the dataclass's attribute names.
   */
  lemma DefaultFieldsNeverMatch(ev: W.EvidenceInfo)
    ensures W.MissingFields(W.DataclassName, ev, W.DefaultRequired) == []
  {
    NoneMatchAmong(ev, |W.FieldNames|);
  }

  lemma {:induction false} NoneMatchAmong(ev: W.EvidenceInfo, n: nat)
    requires n <= |W.FieldNames|
    ensures W.MissingAmong(W.DataclassName, ev, W.DefaultRequired, n) == []
    decreases n
  {
    if n > 0 {
      NoneMatchAmong(ev, n - 1);
      assert W.FieldNames[n - 1] !in W.WireNames;
    }
  }

  /** Evidence with every field but an empty path-safety report. */
  const NoReportEvidence := W.EvidenceInfo("evidence.md", "evidence.patch", "sha256:e", "sha256:p", None)

  /** Under the intended matching, the only field missing from that evidence is `path_safety`. */
  lemma NoReportMissing()
    ensures W.MissingFields(W.EitherName, NoReportEvidence, W.DefaultRequired) == ["path_safety"]
  {
    var missing := W.MissingFields(W.EitherName, NoReportEvidence, W.DefaultRequired);
    W.MissingFieldsSpec(NoReportEvidence);
    W.MissingAmongBelow(W.EitherName, NoReportEvidence, W.DefaultRequired, |W.FieldNames|);
    assert W.FieldNames[4] in missing;
    assert forall k :: 0 <= k < 4 ==> W.FieldNames[k] !in missing;
    assert |missing| == 1 by {
      W.MissingDistinct(W.EitherName, NoReportEvidence, W.DefaultRequired, |W.FieldNames|);
      assert missing == W.MissingAmong(W.EitherName, NoReportEvidence, W.DefaultRequired, |W.FieldNames|);
      forall i | 0 <= i < |missing|
        ensures missing[i] == W.FieldNames[4]
      {
        assert missing[i] in missing;
      }
      AtMostOneOf(missing, W.FieldNames[4]);
    }
  }

  /** A list without repeats holds a value at most once. */
  lemma AtMostOneOf<T>(s: seq<T>, x: T)
    requires W.Distinct(s)
    ensures (forall i :: 0 <= i < |s| ==> s[i] == x) ==> |s| <= 1
  {
    if |s| > 1 && s[0] == x && s[1] == x {
      assert false;
    }
  }

  /** Under the intended matching, the same evidence gets WARN for its one missing field. */
  lemma NoReportIntendedWarns()
    ensures var r := W.Evaluation(W.Intended, NoReportEvidence, W.DefaultRequired, W.DigestOk, W.DigestOk, AsGiven);
      r.verdict == W.Warn && r.reasons == ["missing required fields: ['path_safety']"]
  {
    NoReportMissing();
    var missing := ["path_safety"];
    var reason := "missing required fields: ['path_safety']";
    NoReportReason();
    W.EvaluationReasons(W.Intended, NoReportEvidence, W.DefaultRequired, W.DigestOk, W.DigestOk, AsGiven);
    W.EvaluationRuling(W.Intended, NoReportEvidence, W.DefaultRequired, W.DigestOk, W.DigestOk, AsGiven);
    assert W.Violations([]) == [];
    assert [reason] + [] + [] + [] == [reason];
    MissingOnlyWarns(missing);
  }

  /** A missing-fields reason alone makes the ruling WARN. */
  lemma MissingOnlyWarns(missing: seq<string>)
    requires forall x :: x in missing ==> x in W.FieldNames
    ensures W.Ruling(["missing required fields: " + W.ListRepr(missing)]).0 == W.Warn
  {
    var reason := "missing required fields: " + W.ListRepr(missing);
    W.MissingReasonWords(missing);
    assert !W.Mentions([reason], "deny command") && !W.Mentions([reason], "outside repo");
  }

  lemma NoReportReason()
    ensures W.MissingReasons(["path_safety"]) == ["missing required fields: ['path_safety']"]
  {
    var missing := ["path_safety"];
    assert W.Quoted(missing) == ["'" + "path_safety" + "'"];
    assert W.ListRepr(missing) == "[" + ("'" + "path_safety" + "'") + "]";
    assert "missing required fields: " + ("[" + ("'" + "path_safety" + "'") + "]") == "missing required fields: ['path_safety']";
  }

  /**
   * As written, evidence without a path-safety report passes; the intended
   * check reports the missing field and warns.
   */
  lemma RequiredFieldsCounterexample()
    ensures W.Evaluation(W.SourceReading, NoReportEvidence, W.DefaultRequired, W.DigestOk, W.DigestOk, AsGiven).verdict == W.Pass
    ensures var r := W.Evaluation(W.Intended, NoReportEvidence, W.DefaultRequired, W.DigestOk, W.DigestOk, AsGiven);
      r.verdict == W.Warn && r.reasons == ["missing required fields: ['path_safety']"]
  {
    DefaultFieldsNeverMatch(NoReportEvidence);
    W.PassIff(W.SourceReading, NoReportEvidence, W.DefaultRequired, W.DigestOk, W.DigestOk, AsGiven);
    NoReportIntendedWarns();
  }
}
