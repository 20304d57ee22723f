/**
 * The event protocol: the closed list of event types, the event record as
 * it is stored in the log, and the CRC-32 stamp over its canonical JSON.
 */
module Protocol {
  import opened Wrappers
  import opened Json
  import Crc32

  /** The event types of the protocol; `Other` is any type outside the list. */
  datatype EventType =
    | TeamCreated | ProjectStarted | ProjectFinished | ProjectHalted | ProjectResumed
    | TaskspecPublished | TaskSkillSet | PolicyTierRequested | PolicyTierApproved
    | WorkerRunIntent | WorkerRunStarted | WorkerRunCompleted | WorkerRunFailed
    | WorkerRunAborted | RunClosed | EvidenceSubmitted | WatchdogVerdict
    | WatchdogHeartbeat | HumanVerdict | ProjectModeRestored | RecoveryStarted
    | MessageIgnored | WatchdogUnresponsive | VerdictTimeout | LockTimeoutDetected
    | CorruptedLineDetected
    | Other(name: string)

  /** The wire name of an event type. */
  function Name(t: EventType): string {
    match t
    case TeamCreated => "TEAM_CREATED"
    case ProjectStarted => "PROJECT_STARTED"
    case ProjectFinished => "PROJECT_FINISHED"
    case ProjectHalted => "PROJECT_HALTED"
    case ProjectResumed => "PROJECT_RESUMED"
    case TaskspecPublished => "TASKSPEC_PUBLISHED"
    case TaskSkillSet => "TASK_SKILL_SET"
    case PolicyTierRequested => "POLICY_TIER_REQUESTED"
    case PolicyTierApproved => "POLICY_TIER_APPROVED"
    case WorkerRunIntent => "WORKER_RUN_INTENT"
    case WorkerRunStarted => "WORKER_RUN_STARTED"
    case WorkerRunCompleted => "WORKER_RUN_COMPLETED"
    case WorkerRunFailed => "WORKER_RUN_FAILED"
    case WorkerRunAborted => "WORKER_RUN_ABORTED"
    case RunClosed => "RUN_CLOSED"
    case EvidenceSubmitted => "EVIDENCE_SUBMITTED"
    case WatchdogVerdict => "WATCHDOG_VERDICT"
    case WatchdogHeartbeat => "WATCHDOG_HEARTBEAT"
    case HumanVerdict => "HUMAN_VERDICT"
    case ProjectModeRestored => "PROJECT_MODE_RESTORED"
    case RecoveryStarted => "RECOVERY_STARTED"
    case MessageIgnored => "MESSAGE_IGNORED"
    case WatchdogUnresponsive => "WATCHDOG_UNRESPONSIVE"
    case VerdictTimeout => "VERDICT_TIMEOUT"
    case LockTimeoutDetected => "LOCK_TIMEOUT_DETECTED"
    case CorruptedLineDetected => "CORRUPTED_LINE_DETECTED"
    case Other(n) => n
  }

  /**
   * An event as it is written to the log. Every optional field is a key
   * that may be absent from the JSON object.
   */
  datatype Event = Event(
    etype: EventType,
    actor: Option<string>,
    project: Option<string>,
    payload: Dict,
    idempotencyKey: Option<string>,
    taskId: Option<string>,
    runId: Option<string>,
    correlationId: Option<string>,
    sessionLabel: Option<string>,
    causationId: Option<string>,
    eventId: Option<string>,
    schemaVersion: Option<int>,
    sequenceNumber: Option<int>,
    at: Option<int>,
    crc32: Option<string>)

  function StrField(k: string, x: Option<string>): Dict {
    if x.Some? then [(k, JStr(x.value))] else []
  }

  function IntField(k: string, x: Option<int>): Dict {
    if x.Some? then [(k, JInt(x.value))] else []
  }

  /** The JSON object of an event without its `crc32` key. */
  function Body(e: Event): Dict {
    [("type", JStr(Name(e.etype)))]
    + StrField("actor", e.actor)
    + StrField("project", e.project)
    + [("payload", JObj(e.payload))]
    + StrField("idempotencyKey", e.idempotencyKey)
    + StrField("taskId", e.taskId)
    + StrField("runId", e.runId)
    + StrField("correlationId", e.correlationId)
    + StrField("sessionLabel", e.sessionLabel)
    + StrField("causationId", e.causationId)
    + StrField("eventId", e.eventId)
    + IntField("schemaVersion", e.schemaVersion)
    + IntField("sequenceNumber", e.sequenceNumber)
    + IntField("at", e.at)
  }

  /** The JSON object of an event; `crc32`, when present, is the last key. */
  function ToDict(e: Event): Dict {
    Body(e) + StrField("crc32", e.crc32)
  }

  lemma BodyLacksCrc(e: Event)
    ensures !Has(Body(e), "crc32")
  {
    var b := Body(e);
    assert forall p :: p in b ==> p.0 != "crc32";
    forall i | 0 <= i < |b| ensures Keys(b)[i] != "crc32" {
      assert b[i] in b;
    }
  }

  /** `canonical_json`: the event with `crc32` blanked, keys sorted, no spaces. */
  function CanonicalJson(d: Dict): string {
    Render(JObj(Put(d, "crc32", JStr(""))))
  }

  /** `compute_crc32`: eight upper-case hex digits of the CRC-32 of the UTF-8 canonical JSON. */
  function ComputeCrc32(d: Dict): (r: string)
    ensures |r| == 8
  {
    Crc32.Format(Crc32.Crc(Utf8(CanonicalJson(d))))
  }

  /** `verify_crc32`: a missing or empty stamp never verifies. */
  function VerifyCrc32(d: Dict): (r: bool)
    ensures r ==> Truthy(Get(d, "crc32"))
  {
    var crc := Get(d, "crc32");
    if !Truthy(crc) then false else crc == JStr(ComputeCrc32(d))
  }

  /** The checksum does not depend on the value of an existing `crc32` key. */
  lemma CrcIgnoresStamp(d: Dict, v: Json)
    ensures ComputeCrc32(Put(d, "crc32", v)) == ComputeCrc32(d)
  {
    PutTwice(d, "crc32", v, JStr(""));
  }

  /**
   * Two dicts with the same entries in different insertion orders get the
   * same checksum.
   */
  lemma CrcIgnoresInsertionOrder(d1: Dict, d2: Dict)
    requires UniqueKeys(d1) && multiset(d1) == multiset(d2)
    ensures ComputeCrc32(d1) == ComputeCrc32(d2)
  {
    PutSameEntries(d1, d2, "crc32", JStr(""));
    RenderIgnoresInsertionOrder(Put(d1, "crc32", JStr("")), Put(d2, "crc32", JStr("")));
  }

  /** Stamping a dict with its own checksum makes it verify. */
  lemma StampVerifies(d: Dict)
    ensures VerifyCrc32(Put(d, "crc32", JStr(ComputeCrc32(d))))
  {
    CrcIgnoresStamp(d, JStr(ComputeCrc32(d)));
    PutGet(d, "crc32", JStr(ComputeCrc32(d)));
  }

  /** A stamp differing from the checksum of the rest does not verify. */
  lemma WrongStampFails(d: Dict, c: string)
    requires c != ComputeCrc32(d)
    ensures !VerifyCrc32(Put(d, "crc32", JStr(c)))
  {
    CrcIgnoresStamp(d, JStr(c));
    PutGet(d, "crc32", JStr(c));
  }

  /** The checksum of an event record. */
  function EventCrc(e: Event): string {
    ComputeCrc32(ToDict(e))
  }

  /** A stamp appended to a dict without one verifies exactly when it is the dict's checksum. */
  lemma AppendedStampVerifies(b: Dict, c: string)
    requires !Has(b, "crc32")
    ensures VerifyCrc32(b + [("crc32", JStr(c))]) <==> c == ComputeCrc32(b)
  {
    var d := b + [("crc32", JStr(c))];
    PutAbsent(b, "crc32", JStr(c));
    PutGet(b, "crc32", JStr(c));
    StampedVerifies(d, c);
    AppendedStampIgnored(b, c);
  }

  /** A dict whose stamp is `c` verifies exactly when `c` is its checksum. */
  lemma StampedVerifies(d: Dict, c: string)
    requires Get(d, "crc32") == JStr(c)
    ensures VerifyCrc32(d) <==> c == ComputeCrc32(d)
  {
  }

  /** Appending a stamp to a dict without one leaves its checksum as it was. */
  lemma AppendedStampIgnored(b: Dict, c: string)
    requires !Has(b, "crc32")
    ensures ComputeCrc32(b + [("crc32", JStr(c))]) == ComputeCrc32(b)
  {
    PutAbsent(b, "crc32", JStr(c));
    CrcIgnoresStamp(b, JStr(c));
  }

  /** An event stamped with its own checksum verifies; any other stamp does not. */
  lemma EventStampVerifies(e: Event, c: string)
    ensures VerifyCrc32(ToDict(e.(crc32 := Some(c)))) <==> c == EventCrc(e)
  {
    var b := Body(e);
    BodyLacksCrc(e);
    assert Body(e.(crc32 := Some(c))) == b;
    assert ToDict(e.(crc32 := Some(c))) == b + [("crc32", JStr(c))];
    AppendedStampVerifies(b, c);
    if e.crc32.Some? {
      assert ToDict(e) == b + [("crc32", JStr(e.crc32.value))];
      AppendedStampIgnored(b, e.crc32.value);
    } else {
      assert ToDict(e) == b;
    }
  }
}
