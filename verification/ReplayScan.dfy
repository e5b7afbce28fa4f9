/** Offline replay: every record of a segment is verified, recorded facts are evaluated again, and
    captured prefixes are scanned again, one scanner per stream, however the streams interleave. */
module ReplayScan {
  import opened Common
  import opened Domain
  import opened Inspection
  import Acl
  import AuditLog
  import AuditReplay
  import Destination

  type Record = AuditLog.Record
  type Verifier = AuditReplay.Verifier

  datatype StreamKey = StreamKey(session: nat, transaction: Option<nat>, direction: Direction, protocol: Protocol)

  datatype ReplayError =
    | RecordFault(line: nat, fault: AuditReplay.Fault)
    | NoRequiredCheckpoint

  /** What replay evaluates with: the compiled configuration. */
  datatype ReplayConfig = ReplayConfig(policy: Acl.AclPolicy, guard: Destination.GuardSettings, program: Program)

  datatype Source = RecordedFacts | CapturedPrefix

  /** One emitted decision; the record names its sequence, session and transaction. */
  datatype Emitted = Emitted(record: Record, source: Source, decision: Decision)

  /** The decisions made again from recorded facts: the guard's, if any, then the policy's. */
  function FactsDecisions(config: ReplayConfig, facts: AuditLog.ReplayFacts): seq<Decision> {
    match facts
    case FindingInput(finding, protocol) => [Evaluate(config.program, finding, protocol)]
    case PolicyInput(input) =>
      if input.Resolved? then
        var guarded := Destination.GuardDecision(config.guard, config.policy.generation, input.target);
        (if guarded.Some? then [guarded.value] else []) + [Acl.Decide(config.policy, input)]
      else [Acl.Decide(config.policy, input)]
  }

  predicate Captures(record: Record) {
    record.unsigned.event.PayloadPrefixCaptured?
  }

  function KeyOf(record: Record): StreamKey
    requires Captures(record)
  {
    StreamKey(
      record.unsigned.context.session, record.unsigned.context.transaction,
      record.unsigned.event.direction, record.unsigned.event.protocol)
  }

  predicate Belongs(record: Record, key: StreamKey) {
    Captures(record) && KeyOf(record) == key
  }

  /** The chunks a segment holds for one stream, in order. */
  function ChunksOf(records: seq<Record>, key: StreamKey): seq<Bytes> {
    if records == [] then []
    else
      var k := |records| - 1;
      if Belongs(records[k], key) then ChunksOf(records[..k], key) + [records[k].unsigned.event.bytes]
      else ChunksOf(records[..k], key)
  }

  function CapturedTotal(records: seq<Record>): nat {
    if records == [] then 0
    else
      var k := |records| - 1;
      CapturedTotal(records[..k]) + if Captures(records[k]) then |records[k].unsigned.event.bytes| else 0
  }

  lemma {:induction false} StreamFits(records: seq<Record>, key: StreamKey)
    ensures |Flatten(ChunksOf(records, key))| <= CapturedTotal(records)
  {
    if records != [] {
      var k := |records| - 1;
      StreamFits(records[..k], key);
      if Belongs(records[k], key) {
        FlattenAppend(ChunksOf(records[..k], key), records[k].unsigned.event.bytes);
      }
    }
  }

  /** The findings a record adds to its stream, given the records before it. */
  function RecordFindings(program: Program, before: seq<Record>, record: Record): seq<Finding> {
    if !Captures(record) then []
    else
      NewFindings(
        program, record.unsigned.event.direction, Flatten(ChunksOf(before, KeyOf(record))),
        record.unsigned.event.bytes)
  }

  /** What policy decides about each finding. */
  function Evaluations(program: Program, findings: seq<Finding>, protocol: Protocol): seq<Decision> {
    if findings == [] then []
    else
      var k := |findings| - 1;
      Evaluations(program, findings[..k], protocol) + [Evaluate(program, findings[k], protocol)]
  }

  function Emissions(record: Record, source: Source, decisions: seq<Decision>): (r: seq<Emitted>)
    ensures |r| == |decisions|
  {
    if decisions == [] then []
    else
      var k := |decisions| - 1;
      Emissions(record, source, decisions[..k]) + [Emitted(record, source, decisions[k])]
  }

  function RecordOutput(config: ReplayConfig, before: seq<Record>, record: Record): seq<Emitted> {
    var event := record.unsigned.event;
    if Captures(record) then
      Emissions(record, CapturedPrefix,
                Evaluations(config.program, RecordFindings(config.program, before, record), event.protocol))
    else if event.FactsObserved? then Emissions(record, RecordedFacts, FactsDecisions(config, event.facts))
    else []
  }

  /** Everything replay emits for a segment. */
  function Output(config: ReplayConfig, records: seq<Record>): seq<Emitted> {
    if records == [] then []
    else
      var k := |records| - 1;
      Output(config, records[..k]) + RecordOutput(config, records[..k], records[k])
  }

  method EvaluateAll(program: Program, findings: seq<Finding>, protocol: Protocol) returns (decisions: seq<Decision>)
    ensures decisions == Evaluations(program, findings, protocol)
  {
    decisions := [];
    for i := 0 to |findings|
      invariant decisions == Evaluations(program, findings[..i], protocol)
    {
      assert findings[..i + 1][..i] == findings[..i];
      decisions := decisions + [Evaluate(program, findings[i], protocol)];
    }
    assert findings[..|findings|] == findings;
  }

  method Emit(record: Record, source: Source, decisions: seq<Decision>) returns (emitted: seq<Emitted>)
    ensures emitted == Emissions(record, source, decisions)
  {
    emitted := [];
    for i := 0 to |decisions|
      invariant emitted == Emissions(record, source, decisions[..i])
    {
      assert decisions[..i + 1][..i] == decisions[..i];
      emitted := emitted + [Emitted(record, source, decisions[i])];
    }
    assert decisions[..|decisions|] == decisions;
  }

  /** The bytes scanned so far for a stream; a stream not met yet has none. */
  function Seen(streams: map<StreamKey, Bytes>, key: StreamKey): Bytes {
    if key in streams then streams[key] else []
  }

  /** The scanned streams are exactly those the replayed records hold. */
  ghost predicate Holds(streams: map<StreamKey, Bytes>, records: seq<Record>) {
    forall key: StreamKey :: Seen(streams, key) == Flatten(ChunksOf(records, key))
  }

  function Extended(streams: map<StreamKey, Bytes>, record: Record): map<StreamKey, Bytes> {
    if Captures(record)
    then streams[KeyOf(record) := Seen(streams, KeyOf(record)) + record.unsigned.event.bytes] else streams
  }

  lemma HoldsAppend(streams: map<StreamKey, Bytes>, records: seq<Record>, record: Record)
    requires Holds(streams, records)
    ensures Holds(Extended(streams, record), records + [record])
  {
  }

  /** What is kept of a stream's scanner between records. */
  datatype Saved = Saved(carry: Bytes, processedBytes: nat)

  const FRESH := Saved([], 0)

  predicate Keeps(program: Program, seen: Bytes, saved: Saved) {
    Retains(program, seen, saved.carry, saved.processedBytes)
  }

  /** Runs one stream's scanner over the next captured bytes. */
  method Continue(program: Program, direction: Direction, saved: Saved, bytes: Bytes, ghost seen: Bytes)
    returns (findings: seq<Finding>, after: Saved)
    requires Keeps(program, seen, saved)
    ensures Keeps(program, seen + bytes, after)
    ensures |seen| <= U64_MAX ==> findings == NewFindings(program, direction, seen, bytes)
  {
    var scanner := new StreamScanner.Resume(program, direction, saved.carry, saved.processedBytes, seen);
    findings := scanner.Inspect(bytes);
    after := Saved(scanner.carry, scanner.processedBytes);
  }

  /** The scanners of every stream met so far. `streams` is what each of them has scanned. */
  class StreamScanners {
    const program: Program
    var scanners: map<StreamKey, Saved>
    ghost var streams: map<StreamKey, Bytes>

    ghost predicate Valid()
      reads this
    {
      && streams.Keys == scanners.Keys
      && forall k | k in scanners :: Keeps(program, streams[k], scanners[k])
    }

    constructor (program: Program)
      ensures Valid() && streams == map[] && this.program == program
    {
      this.program := program;
      scanners, streams := map[], map[];
    }

    /** Feeds captured bytes to the scanner of their own stream, created on first use. */
    method Scan(key: StreamKey, bytes: Bytes) returns (findings: seq<Finding>)
      requires Valid()
      modifies this
      ensures Valid() && streams == old(streams)[key := Seen(old(streams), key) + bytes]
      ensures |Seen(old(streams), key)| <= U64_MAX ==>
                findings == NewFindings(program, key.direction, Seen(old(streams), key), bytes)
    {
      var saved := if key in scanners then scanners[key] else FRESH;
      ghost var seen := Seen(streams, key);
      var after;
      findings, after := Continue(program, key.direction, saved, bytes, seen);
      scanners := scanners[key := after];
      streams := streams[key := seen + bytes];
    }

    /** Replays one record that raised no fault. */
    method ReplayRecord(config: ReplayConfig, record: Record, ghost before: seq<Record>)
      returns (emitted: seq<Emitted>)
      requires Valid() && program == config.program && Holds(streams, before)
      modifies this
      ensures Valid() && Holds(streams, before + [record])
      ensures CapturedTotal(before) <= U64_MAX ==> emitted == RecordOutput(config, before, record)
    {
      HoldsAppend(streams, before, record);
      var event := record.unsigned.event;
      if event.PayloadPrefixCaptured? {
        StreamFits(before, KeyOf(record));
        var findings := Scan(KeyOf(record), event.bytes);
        var decisions := EvaluateAll(program, findings, event.protocol);
        emitted := Emit(record, CapturedPrefix, decisions);
      } else if event.FactsObserved? {
        emitted := Emit(record, RecordedFacts, FactsDecisions(config, event.facts));
      } else {
        emitted := [];
      }
    }
  }

  /** Replay of `records` ended in `r` after replaying the first `done` of them. */
  predicate ReplayOutcome(v: Verifier, records: seq<Record>, done: nat, r: Result<nat, ReplayError>) {
    if r.Success? then done == |records| && AuditReplay.Accepted(v, records)
    else if r.error.NoRequiredCheckpoint? then
      && done == |records| && AuditReplay.Intact(v, records)
      && v.expectedKey.Some? && !AuditReplay.HoldsCheckpoint(records)
    else
      && done < |records| && r.error.line == done + 1 && AuditReplay.Intact(v, records[..done])
      && AuditReplay.RecordFault(v, Saturate(done + 1), AuditLog.LastHash(records[..done]), records[done])
         == Some(r.error.fault)
  }

  lemma {:induction false} TotalGrows(records: seq<Record>, n: nat)
    requires n <= |records|
    ensures CapturedTotal(records[..n]) <= CapturedTotal(records)
  {
    if n == |records| {
      assert records[..n] == records;
    } else {
      var k := |records| - 1;
      TotalGrows(records[..k], n);
      assert records[..k][..n] == records[..n];
    }
  }

  lemma HoldsCheckpointAppend(records: seq<Record>, record: Record)
    ensures AuditReplay.HoldsCheckpoint(records + [record])
            <==> AuditReplay.HoldsCheckpoint(records) || record.unsigned.event.Checkpoint?
  {
    var all := records + [record];
    if record.unsigned.event.Checkpoint? {
      assert all[|records|].unsigned.event.Checkpoint?;
    } else if AuditReplay.HoldsCheckpoint(records) {
      var i :| 0 <= i < |records| && records[i].unsigned.event.Checkpoint?;
      assert all[i].unsigned.event.Checkpoint?;
    }
  }

  /** The loop's bookkeeping after `i` faultless records. */
  ghost predicate Verified(
    v: Verifier, records: seq<Record>, i: nat, expected: nat, previous: Option<AuditLog.Digest>, checkpoints: nat)
    requires i <= |records|
  {
    && AuditReplay.Intact(v, records[..i])
    && expected == Saturate(i + 1) && previous == AuditLog.LastHash(records[..i])
    && (checkpoints > 0 <==> AuditReplay.HoldsCheckpoint(records[..i]))
  }

  lemma VerifiedStep(
    v: Verifier, records: seq<Record>, i: nat, expected: nat, previous: Option<AuditLog.Digest>, checkpoints: nat)
    requires i < |records| && Verified(v, records, i, expected, previous, checkpoints)
    requires AuditReplay.RecordFault(v, expected, previous, records[i]).None?
    ensures Verified(
              v, records, i + 1, SaturatingAdd(expected, 1), Some(records[i].hash),
              if records[i].unsigned.event.Checkpoint? then SaturatingAdd(checkpoints, 1) else checkpoints)
  {
    assert records[..i + 1] == records[..i] + [records[i]];
    AuditReplay.IntactAppend(v, records[..i], records[i]);
    HoldsCheckpointAppend(records[..i], records[i]);
  }

  lemma OutputStep(config: ReplayConfig, records: seq<Record>, i: nat)
    requires i < |records|
    ensures Output(config, records[..i + 1])
            == Output(config, records[..i]) + RecordOutput(config, records[..i], records[i])
  {
    assert records[..i + 1][..i] == records[..i];
  }

  /** Verifies a segment record by record while replaying it. It succeeds exactly on accepted segments,
      and otherwise names the first faulty line and its fault. */
  method ReplayAudit(v: Verifier, config: ReplayConfig, records: seq<Record>)
    returns (emitted: seq<Emitted>, r: Result<nat, ReplayError>, ghost done: nat)
    ensures ReplayOutcome(v, records, done, r)
    ensures CapturedTotal(records) <= U64_MAX ==> emitted == Output(config, records[..done])
    ensures r.Success? ==> r.value == Saturate(|emitted|)
  {
    var expectedSequence := 1;
    var previousHash := None;
    var decisions := 0;
    var verifiedCheckpoints := 0;
    var scanners := new StreamScanners(config.program);
    emitted, done := [], 0;
    for i := 0 to |records|
      invariant done == i && Verified(v, records, i, expectedSequence, previousHash, verifiedCheckpoints)
      invariant scanners.Valid() && scanners.program == config.program && Holds(scanners.streams, records[..i])
      invariant CapturedTotal(records) <= U64_MAX ==> emitted == Output(config, records[..i])
      invariant decisions == Saturate(|emitted|)
    {
      var record := records[i];
      var fault := AuditReplay.RecordFault(v, expectedSequence, previousHash, record);
      if fault.Some? {
        return emitted, Failure(RecordFault(i + 1, fault.value)), i;
      }
      VerifiedStep(v, records, i, expectedSequence, previousHash, verifiedCheckpoints);
      if record.unsigned.event.Checkpoint? {
        verifiedCheckpoints := SaturatingAdd(verifiedCheckpoints, 1);
      }
      TotalGrows(records, i);
      OutputStep(config, records, i);
      var more := scanners.ReplayRecord(config, record, records[..i]);
      TakeNext(records, i);
      decisions := SaturatingAdd(decisions, |more|);
      emitted := emitted + more;
      previousHash := Some(record.hash);
      expectedSequence := SaturatingAdd(expectedSequence, 1);
      done := i + 1;
    }
    assert records[..|records|] == records;
    if v.expectedKey.Some? && verifiedCheckpoints == 0 {
      return emitted, Failure(NoRequiredCheckpoint), |records|;
    }
    return emitted, Success(decisions), |records|;
  }
}
