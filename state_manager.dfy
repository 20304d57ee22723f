/**
 * The append-only event log: idempotency keys, sequence numbers, the
 * default fields an appended event receives and its CRC stamp.
 */
module StateManager {
  import opened Wrappers
  import opened Text
  import opened Json
  import opened Protocol

  /** The log's persistent state: events in file order, the key index, the last sequence number. */
  datatype LogState = LogState(events: seq<Event>, keys: map<string, int>, lastSeq: int)

  /** The outcome of one append; `Rejected` is the `ValueError` for a missing key. */
  datatype AppendResult = Rejected | Deduped | Appended(event: Event)

  /**
   * What an append draws on besides the log: a source of fresh event ids
   * (`e-` and a random uuid, one per sequence number) and the checksum
   * function, which is `EventCrc` for the real log.
   */
  datatype Env = Env(newId: int -> string, checksum: Event -> string)

  /** An empty log: no sequence file and no events, so the last sequence is 0. */
  const Empty := LogState([], map[], 0)

  /** The defaults `append_event` fills in, then the checksum over the result. */
  function Stamp(e: Event, number: int, newId: string, now: int, checksum: Event -> string): (r: Event)
    ensures e.eventId.Some? ==> r.eventId == e.eventId
    ensures e.eventId.None? ==> r.eventId == Some(newId)
    ensures e.schemaVersion.Some? ==> r.schemaVersion == e.schemaVersion
    ensures e.schemaVersion.None? ==> r.schemaVersion == Some(1)
    ensures e.sequenceNumber.Some? ==> r.sequenceNumber == e.sequenceNumber
    ensures e.sequenceNumber.None? ==> r.sequenceNumber == Some(number)
    ensures e.at.Some? ==> r.at == e.at
    ensures e.at.None? ==> r.at == Some(now)
    ensures r.crc32 == Some(checksum(r.(crc32 := e.crc32)))
    ensures r.(eventId := e.eventId, schemaVersion := e.schemaVersion,
               sequenceNumber := e.sequenceNumber, at := e.at, crc32 := e.crc32) == e
  {
    var f := e.(
      eventId := if e.eventId.Some? then e.eventId else Some(newId),
      schemaVersion := if e.schemaVersion.Some? then e.schemaVersion else Some(1),
      sequenceNumber := if e.sequenceNumber.Some? then e.sequenceNumber else Some(number),
      at := if e.at.Some? then e.at else Some(now));
    f.(crc32 := Some(checksum(f)))
  }

  /** The stamped event carries the checksum that verifies it. */
  lemma StampVerifies(e: Event, number: int, newId: string, now: int)
    ensures VerifyCrc32(ToDict(Stamp(e, number, newId, now, EventCrc)))
  {
    var f := Stamp(e, number, newId, now, EventCrc).(crc32 := e.crc32);
    EventStampVerifies(f, EventCrc(f));
  }

  /**
   * `append_event` on a log state: an event without a key is rejected, a
   * known key is deduplicated, anything else is stamped with the next
   * sequence number and recorded.
   */
  function AppendSpec(s: LogState, e: Event, env: Env, now: int): (LogState, AppendResult) {
    if e.idempotencyKey.None? then (s, Rejected)
    else if e.idempotencyKey.value in s.keys then (s, Deduped)
    else
      var number := s.lastSeq + 1;
      var r := Stamp(e, number, env.newId(number), now, env.checksum);
      (LogState(s.events + [r], s.keys[e.idempotencyKey.value := number], number), Appended(r))
  }

  function Next(s: LogState, e: Event, env: Env, now: int): LogState {
    AppendSpec(s, e, env, now).0
  }

  /** Appending events one after another. */
  function AppendAll(s: LogState, es: seq<Event>, env: Env, now: int): LogState
    decreases |es|
  {
    if es == [] then s else Next(AppendAll(s, es[..|es| - 1], env, now), es[|es| - 1], env, now)
  }

  /** Appending one more event after a batch. */
  lemma AppendOne(s: LogState, es: seq<Event>, e: Event, env: Env, now: int)
    ensures AppendAll(s, es + [e], env, now) == Next(AppendAll(s, es, env, now), e, env, now)
  {
    assert (es + [e])[..|es|] == es;
  }

  /** A keyed append leaves its key in the index and adds no other key. */
  lemma NextKeys(s: LogState, e: Event, env: Env, now: int)
    requires e.idempotencyKey.Some?
    ensures Next(s, e, env, now).keys.Keys == s.keys.Keys + {e.idempotencyKey.value}
  {
  }

  /** Every event's stored checksum matches its contents. */
  ghost predicate AllVerify(es: seq<Event>)
    decreases |es|
  {
    es == [] || (AllVerify(es[..|es| - 1]) && VerifyCrc32(ToDict(es[|es| - 1])))
  }

  /** The state invariant: every logged event is keyed and indexed, under distinct keys and numbers up to the counter. */
  ghost predicate Consistent(s: LogState) {
    && s.lastSeq >= 0
    && |s.events| == |s.keys|
    && (forall k :: k in s.keys ==> 1 <= s.keys[k] <= s.lastSeq)
    && (forall i :: 0 <= i < |s.events| ==>
          s.events[i].idempotencyKey.Some? && s.events[i].idempotencyKey.value in s.keys)
    && (forall i, j :: 0 <= i < j < |s.events| ==>
          s.events[i].idempotencyKey != s.events[j].idempotencyKey)
  }

  lemma EmptyConsistent()
    ensures Consistent(Empty)
  {
  }

  /** Every append keeps the invariant. */
  lemma AppendKeepsConsistent(s: LogState, e: Event, env: Env, now: int)
    requires Consistent(s)
    ensures Consistent(Next(s, e, env, now))
  {
    if e.idempotencyKey.Some? && e.idempotencyKey.value !in s.keys {
      var r := Stamp(e, s.lastSeq + 1, env.newId(s.lastSeq + 1), now, env.checksum);
      FreshEvents(s, e, env, now);
      assert r.idempotencyKey == e.idempotencyKey;
      ConsistentExtend(s, r, e.idempotencyKey.value);
    }
  }

  /** A record under a new key, indexed under the next sequence number, keeps the log consistent. */
  lemma ConsistentExtend(s: LogState, r: Event, k: string)
    requires Consistent(s) && r.idempotencyKey == Some(k) && k !in s.keys
    ensures Consistent(LogState(s.events + [r], s.keys[k := s.lastSeq + 1], s.lastSeq + 1))
  {
    var s' := LogState(s.events + [r], s.keys[k := s.lastSeq + 1], s.lastSeq + 1);
    assert s'.keys.Keys == s.keys.Keys + {k};
    assert |s'.keys| == |s.keys| + 1;
    forall i, j | 0 <= i < j < |s'.events|
      ensures s'.events[i].idempotencyKey != s'.events[j].idempotencyKey
    {
      if j == |s.events| {
        assert s.events[i].idempotencyKey.value in s.keys;
      }
    }
  }

  /** With the real checksum, every stored event verifies, and appends keep it so. */
  lemma AppendKeepsVerified(s: LogState, e: Event, env: Env, now: int)
    requires env.checksum == EventCrc
    requires AllVerify(s.events)
    ensures AllVerify(Next(s, e, env, now).events)
  {
    if e.idempotencyKey.Some? && e.idempotencyKey.value !in s.keys {
      var r := Stamp(e, s.lastSeq + 1, env.newId(s.lastSeq + 1), now, env.checksum);
      FreshEvents(s, e, env, now);
      StampWithVerifies(e, s.lastSeq + 1, env.newId(s.lastSeq + 1), now, env.checksum);
      assert (s.events + [r])[..|s.events|] == s.events;
    }
  }

  lemma FreshEvents(s: LogState, e: Event, env: Env, now: int)
    requires e.idempotencyKey.Some? && e.idempotencyKey.value !in s.keys
    ensures var r := Stamp(e, s.lastSeq + 1, env.newId(s.lastSeq + 1), now, env.checksum);
      AppendSpec(s, e, env, now)
      == (LogState(s.events + [r], s.keys[e.idempotencyKey.value := s.lastSeq + 1], s.lastSeq + 1), Appended(r))
  {
  }

  lemma StampWithVerifies(e: Event, number: int, newId: string, now: int, checksum: Event -> string)
    requires checksum == EventCrc
    ensures VerifyCrc32(ToDict(Stamp(e, number, newId, now, checksum)))
  {
    StampVerifies(e, number, newId, now);
  }

  /**
   * A fresh append takes sequence number last + 1, indexes the key under
   * it and advances the counter; the event carries that number unless the
   * caller supplied one.
   */
  lemma FreshAppend(s: LogState, e: Event, env: Env, now: int)
    requires Consistent(s)
    requires e.idempotencyKey.Some? && e.idempotencyKey.value !in s.keys
    ensures var (s', r) := AppendSpec(s, e, env, now);
      && r.Appended?
      && s'.lastSeq == s.lastSeq + 1
      && s'.keys[e.idempotencyKey.value] == s'.lastSeq
      && (forall k :: k in s.keys ==> s'.keys[k] < s'.lastSeq)
      && s'.events == s.events + [r.event]
      && r.event.sequenceNumber == (if e.sequenceNumber.Some? then e.sequenceNumber else Some(s'.lastSeq))
  {
  }

  /** Once a key is indexed, appending an event with that key changes nothing. */
  lemma KnownKeyDeduped(s: LogState, e: Event, env: Env, now: int)
    requires e.idempotencyKey.Some? && e.idempotencyKey.value in s.keys
    ensures AppendSpec(s, e, env, now) == (s, Deduped)
  {
  }

  /** Every key of an appended batch is indexed afterwards, and indexed keys stay indexed. */
  lemma {:induction false} AppendAllIndexes(s: LogState, es: seq<Event>, env: Env, now: int)
    ensures s.keys.Keys <= AppendAll(s, es, env, now).keys.Keys
    ensures forall i :: 0 <= i < |es| && es[i].idempotencyKey.Some? ==>
      es[i].idempotencyKey.value in AppendAll(s, es, env, now).keys
    decreases |es|
  {
    if es != [] {
      var init := es[..|es| - 1];
      AppendAllIndexes(s, init, env, now);
      forall i | 0 <= i < |es| - 1 ensures es[i] == init[i] { }
    }
  }

  /** Appending events whose keys are all indexed changes nothing. */
  lemma {:induction false} AppendAllKnown(s: LogState, es: seq<Event>, env: Env, now: int)
    requires forall i :: 0 <= i < |es| ==> es[i].idempotencyKey.Some? && es[i].idempotencyKey.value in s.keys
    ensures AppendAll(s, es, env, now) == s
    decreases |es|
  {
    if es != [] {
      AppendAllKnown(s, es[..|es| - 1], env, now);
    }
  }

  /**
   * Replaying the same keyed batch a second time appends nothing: the
   * property every orchestrator policy relies on to fire at most once.
   */
  lemma AppendAllIdempotent(s: LogState, es: seq<Event>, env: Env, now: int, now': int)
    requires forall i :: 0 <= i < |es| ==> es[i].idempotencyKey.Some?
    ensures AppendAll(AppendAll(s, es, env, now), es, env, now') == AppendAll(s, es, env, now)
  {
    AppendAllIndexes(s, es, env, now);
    AppendAllKnown(AppendAll(s, es, env, now), es, env, now');
  }

  /** Appending a batch in two parts is appending it at once. */
  lemma {:induction false} AppendAllConcat(s: LogState, p: seq<Event>, q: seq<Event>, env: Env, now: int)
    ensures AppendAll(s, p + q, env, now) == AppendAll(AppendAll(s, p, env, now), q, env, now)
    decreases |q|
  {
    if q == [] {
      assert p + q == p;
    } else {
      assert (p + q)[..|p + q| - 1] == p + q[..|q| - 1];
      AppendAllConcat(s, p, q[..|q| - 1], env, now);
    }
  }

  lemma {:induction false} AppendAllKeepsConsistent(s: LogState, es: seq<Event>, env: Env, now: int)
    requires Consistent(s)
    ensures Consistent(AppendAll(s, es, env, now))
    decreases |es|
  {
    if es != [] {
      AppendAllKeepsConsistent(s, es[..|es| - 1], env, now);
      AppendKeepsConsistent(AppendAll(s, es[..|es| - 1], env, now), es[|es| - 1], env, now);
    }
  }

  /** The event store with its key index and sequence counter, kept in memory. */
  class EventLog {
    var events: seq<Event>
    var keys: map<string, int>
    var lastSeq: int
    const env: Env

    function State(): LogState
      reads this
    {
      LogState(events, keys, lastSeq)
    }

    ghost predicate Valid()
      reads this
    {
      Consistent(State())
    }

    /** A new log is empty and stamps events with the real checksum. */
    constructor (newId: int -> string)
      ensures State() == Empty && env == Env(newId, EventCrc)
      ensures Valid()
    {
      events := [];
      keys := map[];
      lastSeq := 0;
      env := Env(newId, EventCrc);
    }

    /** `append_event` */
    method Append(e: Event, now: int) returns (r: AppendResult)
      requires Valid()
      modifies this
      ensures (State(), r) == AppendSpec(old(State()), e, env, now)
      ensures Valid()
    {
      AppendKeepsConsistent(State(), e, env, now);
      if e.idempotencyKey.None? {
        return Rejected;
      }
      var key := e.idempotencyKey.value;
      if key in keys {
        return Deduped;
      }
      var number := lastSeq + 1;
      var stamped := StampEvent(e, number, now);
      FreshEvents(State(), e, env, now);
      events := events + [stamped];
      keys := keys[key := number];
      lastSeq := number;
      r := Appended(stamped);
    }

    /** The defaults `append_event` fills in for record number `number`, then the checksum. */
    method StampEvent(e: Event, number: int, now: int) returns (stamped: Event)
      ensures stamped == Stamp(e, number, env.newId(number), now, env.checksum)
    {
      stamped := e;
      if stamped.eventId.None? {
        stamped := stamped.(eventId := Some(env.newId(number)));
      }
      if stamped.schemaVersion.None? {
        stamped := stamped.(schemaVersion := Some(1));
      }
      if stamped.sequenceNumber.None? {
        stamped := stamped.(sequenceNumber := Some(number));
      }
      if stamped.at.None? {
        stamped := stamped.(at := Some(now));
      }
      ghost var f := Stamp(e, number, env.newId(number), now, env.checksum);
      assert f == stamped.(crc32 := f.crc32);
      stamped := stamped.(crc32 := Some(env.checksum(stamped)));
    }
  }

  /**
   * `build_corrupted_event_payload`: the CORRUPTED_LINE_DETECTED and
   * RECOVERY_STARTED events for a damaged log line, given the SHA-256 hex
   * digest of the line.
   */
  function CorruptedEvents(lineOffset: int, contentHash: string, reason: string, project: string): (r: (Event, Event))
    ensures r.0.etype == CorruptedLineDetected && r.1.etype == RecoveryStarted
    ensures r.0.payload == r.1.payload
    ensures r.0.idempotencyKey == Some(project + ":CORRUPTED_LINE:" + IntToString(lineOffset) + ":" + contentHash)
    ensures r.1.idempotencyKey == Some(project + ":RECOVERY_STARTED:" + IntToString(lineOffset) + ":" + contentHash)
  {
    var payload := [("lineOffset", JInt(lineOffset)), ("contentHash", JStr(contentHash)), ("reason", JStr(reason))];
    var off := IntToString(lineOffset);
    (Event(CorruptedLineDetected, Some("orchestrator"), Some(project), payload,
           Some(project + ":CORRUPTED_LINE:" + off + ":" + contentHash),
           None, None, None, None, None, None, None, None, None, None),
     Event(RecoveryStarted, Some("orchestrator"), Some(project), payload,
           Some(project + ":RECOVERY_STARTED:" + off + ":" + contentHash),
           None, None, None, None, None, None, None, None, None, None))
  }

  /**
   * The two events of one corrupted line have different keys, so both are
   * logged the first time; reporting the same line again logs nothing.
   */
  lemma CorruptedLineReportedOnce(s: LogState, lineOffset: int, contentHash: string, reason: string,
                                  project: string, env: Env, now: int, now': int)
    requires var (c, r) := CorruptedEvents(lineOffset, contentHash, reason, project);
      c.idempotencyKey.value !in s.keys && r.idempotencyKey.value !in s.keys
    ensures var (c, r) := CorruptedEvents(lineOffset, contentHash, reason, project);
      var s' := AppendAll(s, [c, r], env, now);
      && |s'.events| == |s.events| + 2
      && AppendAll(s', [c, r], env, now') == s'
  {
    var (c, r) := CorruptedEvents(lineOffset, contentHash, reason, project);
    var k1, k2 := c.idempotencyKey.value, r.idempotencyKey.value;
    assert k1[|project| + 1] == 'C' && k2[|project| + 1] == 'R';
    assert [c, r][..1] == [c] && [c][..0] == [];
    var s1 := Next(s, c, env, now);
    FreshEvents(s, c, env, now);
    FreshEvents(s1, r, env, now);
    assert AppendAll(s, [], env, now) == s;
    assert AppendAll(s, [c], env, now) == s1;
    assert AppendAll(s, [c, r], env, now) == Next(s1, r, env, now);
    AppendAllIdempotent(s, [c, r], env, now, now');
  }
}
