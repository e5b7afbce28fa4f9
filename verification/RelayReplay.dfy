/** From a relay run to its offline replay: the capture and finding records a run publishes are those
    of its forwarded chunks, so replaying the log reports what the run's inspectors reported. */
module RelayReplay {
  import opened Common
  import opened AuditQueue
  import opened Domain
  import opened Inspection
  import opened FlowInspection
  import opened Relay
  import opened RelayProperties
  import opened ReplayAgreement
  import AuditLog
  import ReplayScan

  // ---- The chunks a run forwards ----

  /** What a branch hands to inspection, if anything. */
  function ChunkOf(cfg: RelayConfig, half: Half, event: Event): Option<Bytes>
    requires event.MovesBytes()
  {
    var held := half.preflight.Held();
    if event.PreflightExpired? then Some(held)
    else if event.bytes == [] then if held == [] then None else Some(held)
    else
      Pushed(half.preflight, event.bytes, cfg.limits.preflightBytes, event.now, cfg.limits.preflightTimeout).1
  }

  /** The chunks of one direction that a run inspects, in order. */
  function ForwardedChunks(cfg: RelayConfig, start: nat, events: seq<Event>, side: Side): seq<Bytes> {
    if events == [] then []
    else
      var k := |events| - 1;
      var st := Run(cfg, start, events[..k]);
      var before := ForwardedChunks(cfg, start, events[..k], side);
      if ActsOn(cfg, st, events[k], side) && ChunkOf(cfg, st.Of(side), events[k]).Some?
      then before + [ChunkOf(cfg, st.Of(side), events[k]).value] else before
  }

  lemma ForwardedPermit(cfg: RelayConfig, side: Side, half: Half, lane: Lane, bytes: Bytes, env: Env)
    requires cfg.inspection.Some?
    ensures var step := Forwarded(cfg, side, half, lane, bytes, env);
            var permit := PermitStep(cfg.inspection.value, side.Direction(), lane, bytes, env.queue);
            && step.lane == permit.lane && step.records == permit.records
            && (permit.outcome == AuditRejected ==> step.status == Failed(AuditFailed))
            && (permit.outcome == Blocked ==> step.status == Terminated(InspectionBlocked))
  {
  }

  /** A branch leaves the inspector alone, or gives it exactly one chunk. */
  lemma BranchPermit(cfg: RelayConfig, half: Half, lane: Lane, event: Event)
    requires cfg.inspection.Some? && event.MovesBytes()
    ensures var step := HalfEvent(cfg, half, lane, event);
            var chunk := ChunkOf(cfg, half, event);
            && (chunk.None? ==> step.lane == lane && step.records == [])
            && (chunk.Some? ==>
                  var permit := PermitStep(
                    cfg.inspection.value, event.side.Direction(), lane, chunk.value, event.env.queue);
                  && step.lane == permit.lane && step.records == permit.records
                  && (permit.outcome == AuditRejected ==> step.status == Failed(AuditFailed))
                  && (permit.outcome == Blocked ==> step.status == Terminated(InspectionBlocked)))
  {
    var chunk := ChunkOf(cfg, half, event);
    if chunk.Some? {
      var buffer := if event.PreflightExpired? || event.bytes == [] then Released
        else Pushed(half.preflight, event.bytes, cfg.limits.preflightBytes, event.now, cfg.limits.preflightTimeout).0;
      var next :=
        half.(preflight := buffer, read := if event.PreflightExpired? then half.read else half.read + event.bytes);
      ForwardedPermit(cfg, event.side, next, lane, chunk.value, event.env);
      assert half.read + [] == half.read;
    }
  }

  // ---- Records by direction ----

  function CapturedIn(records: seq<FlowRecord>, direction: Direction): seq<Bytes> {
    if records == [] then []
    else
      var k := |records| - 1;
      if records[k].PayloadPrefixCaptured? && records[k].direction == direction
      then CapturedIn(records[..k], direction) + [records[k].bytes] else CapturedIn(records[..k], direction)
  }

  function FindingsIn(records: seq<FlowRecord>, direction: Direction): seq<Finding> {
    if records == [] then []
    else
      var k := |records| - 1;
      if records[k].FindingDetected? && records[k].finding.direction == direction
      then FindingsIn(records[..k], direction) + [records[k].finding] else FindingsIn(records[..k], direction)
  }

  lemma {:induction false} InConcat(a: seq<FlowRecord>, b: seq<FlowRecord>, direction: Direction)
    ensures CapturedIn(a + b, direction) == CapturedIn(a, direction) + CapturedIn(b, direction)
    ensures FindingsIn(a + b, direction) == FindingsIn(a, direction) + FindingsIn(b, direction)
  {
    if b == [] {
      assert a + b == a;
    } else {
      InConcat(a, b[..|b| - 1], direction);
      ConcatFront(a, b);
    }
  }

  lemma InOne(record: FlowRecord, direction: Direction)
    ensures CapturedIn([record], direction)
            == if record.PayloadPrefixCaptured? && record.direction == direction then [record.bytes] else []
    ensures FindingsIn([record], direction)
            == if record.FindingDetected? && record.finding.direction == direction then [record.finding] else []
  {
    assert [record][..0] == [];
  }

  /** A record that is neither a capture nor a finding adds nothing. */
  lemma InSkips(records: seq<FlowRecord>, record: FlowRecord, direction: Direction)
    requires !record.PayloadPrefixCaptured? && !record.FindingDetected?
    ensures CapturedIn(records + [record], direction) == CapturedIn(records, direction)
    ensures FindingsIn(records + [record], direction) == FindingsIn(records, direction)
  {
    assert (records + [record])[..|records|] == records;
  }

  /** A finding's record followed by two others. */
  lemma InThree(finding: Finding, second: FlowRecord, third: FlowRecord, direction: Direction)
    requires !second.PayloadPrefixCaptured? && !second.FindingDetected?
    requires !third.PayloadPrefixCaptured? && !third.FindingDetected?
    ensures CapturedIn([FindingDetected(finding), second, third], direction) == []
    ensures FindingsIn([FindingDetected(finding), second, third], direction)
            == if finding.direction == direction then [finding] else []
  {
    var detected := FindingDetected(finding);
    InOne(detected, direction);
    InSkips([detected], second, direction);
    InSkips([detected, second], third, direction);
    assert [detected] + [second] == [detected, second];
    assert [detected, second] + [third] == [detected, second, third];
  }

  lemma FindingRecordsOfOne(cfg: InspectConfig, finding: Finding, direction: Direction)
    ensures CapturedIn(RecordsOf(cfg, finding), direction) == []
    ensures FindingsIn(RecordsOf(cfg, finding), direction)
            == if finding.direction == direction then [finding] else []
  {
    var decision := Evaluate(cfg.program, finding, cfg.protocol);
    var facts, evaluated := FindingFacts(finding, cfg.protocol), InspectionEvaluated(decision);
    var three := [FindingDetected(finding), facts, evaluated];
    InThree(finding, facts, evaluated, direction);
    if Blocks(cfg, finding) {
      InSkips(three, ActionExecuted(decision), direction);
    } else {
      assert three + [] == three;
    }
  }

  /** The records of findings hold no captures. */
  lemma {:induction false} NoCapturesIn(cfg: InspectConfig, findings: seq<Finding>, direction: Direction)
    ensures CapturedIn(FindingRecords(cfg, findings), direction) == []
  {
    if findings != [] {
      FindingRecordsOfOne(cfg, findings[0], direction);
      if !Blocks(cfg, findings[0]) {
        NoCapturesIn(cfg, findings[1..], direction);
        InConcat(RecordsOf(cfg, findings[0]), FindingRecords(cfg, findings[1..]), direction);
      }
    }
  }

  predicate AllOf(findings: seq<Finding>, direction: Direction) {
    forall i | 0 <= i < |findings| :: findings[i].direction == direction
  }

  predicate NoneBlocks(cfg: InspectConfig, findings: seq<Finding>) {
    forall i | 0 <= i < |findings| :: !Blocks(cfg, findings[i])
  }

  /** A direction's finding records hold nothing of another direction. */
  lemma {:induction false} ForeignFindingsIn(
    cfg: InspectConfig, findings: seq<Finding>, own: Direction, direction: Direction)
    requires AllOf(findings, own) && direction != own
    ensures FindingsIn(FindingRecords(cfg, findings), direction) == []
  {
    if findings != [] {
      FindingRecordsOfOne(cfg, findings[0], direction);
      if !Blocks(cfg, findings[0]) {
        ForeignFindingsIn(cfg, findings[1..], own, direction);
        InConcat(RecordsOf(cfg, findings[0]), FindingRecords(cfg, findings[1..]), direction);
      }
    }
  }

  /** Findings of which none blocks are all recorded, in order. */
  lemma {:induction false} OwnFindingsIn(cfg: InspectConfig, findings: seq<Finding>, own: Direction)
    requires AllOf(findings, own) && NoneBlocks(cfg, findings)
    ensures FindingsIn(FindingRecords(cfg, findings), own) == findings
  {
    if findings != [] {
      FindingRecordsOfOne(cfg, findings[0], own);
      OwnFindingsIn(cfg, findings[1..], own);
      InConcat(RecordsOf(cfg, findings[0]), FindingRecords(cfg, findings[1..]), own);
      assert findings == [findings[0]] + findings[1..];
    }
  }

  lemma LaneFindingsDirection(cfg: InspectConfig, direction: Direction, lane: Lane, bytes: Bytes)
    ensures AllOf(LaneFindings(cfg, direction, lane, bytes), direction)
  {
    var stream := lane.seen + InspectSlice(cfg, lane, bytes);
    var findings := LaneFindings(cfg, direction, lane, bytes);
    forall i | 0 <= i < |findings| ensures findings[i].direction == direction {
      FindingsExact(cfg.program.patterns, direction, stream, 0, |lane.seen|, findings[i]);
    }
  }

  /** What an inspected chunk adds to the records of a direction. */
  lemma PermitIn(cfg: InspectConfig, own: Direction, lane: Lane, bytes: Bytes, queue: Queue, direction: Direction)
    requires Lossless(queue) && PermitStep(cfg, own, lane, bytes, queue).outcome != AuditRejected
    ensures var permit := PermitStep(cfg, own, lane, bytes, queue);
            var slice := CaptureSlice(cfg, lane, bytes);
            && permit.lane == LaneAfter(cfg, own, lane, bytes)
            && CapturedIn(permit.records, direction) == (if direction == own && slice != [] then [slice] else [])
            && (direction != own ==> FindingsIn(permit.records, direction) == [])
            && (direction == own && permit.outcome == Permitted ==>
                  FindingsIn(permit.records, direction) == LaneFindings(cfg, own, lane, bytes))
  {
    var captured := CaptureRecords(cfg, own, lane, bytes);
    var findings := LaneFindings(cfg, own, lane, bytes);
    var found := FindingRecords(cfg, findings);
    LosslessDelivers(queue, captured + found);
    InConcat(captured, found, direction);
    if captured != [] {
      InOne(captured[0], direction);
    }
    LaneFindingsDirection(cfg, own, lane, bytes);
    NoCapturesIn(cfg, findings, direction);
    if direction != own {
      ForeignFindingsIn(cfg, findings, own, direction);
    } else if ChunkPermitted(cfg, own, lane, bytes) {
      forall i | 0 <= i < |findings| ensures !Blocks(cfg, findings[i]) {
        assert findings[i] in findings;
      }
      OwnFindingsIn(cfg, findings, own);
    }
  }

  // ---- Whole runs ----

  predicate DropsNothing(event: Event) {
    event.MovesBytes() ==> Lossless(event.env.queue)
  }

  /** What a run that published everything owes one direction's records. */
  predicate Accounted(cfg: InspectConfig, st: RelayState, side: Side, chunks: seq<Bytes>) {
    var direction := side.Direction();
    && st.LaneOf(side) == LaneAt(cfg, direction, chunks)
    && CapturedIn(st.published, direction) == LiveCaptures(cfg, direction, chunks)
    && (st.status != Terminated(InspectionBlocked) ==>
          FindingsIn(st.published, direction) == Flatten(LiveFindings(cfg, direction, chunks)))
  }

  lemma ChunkAccounted(
    cfg: InspectConfig, st: RelayState, next: RelayState, side: Side, chunks: seq<Bytes>, chunk: Bytes, queue: Queue)
    requires Accounted(cfg, st, side, chunks) && st.status == Running && Lossless(queue)
    requires var permit := PermitStep(cfg, side.Direction(), st.LaneOf(side), chunk, queue);
             && permit.outcome != AuditRejected
             && next.LaneOf(side) == permit.lane && next.published == st.published + permit.records
             && (permit.outcome == Blocked ==> next.status == Terminated(InspectionBlocked))
    ensures Accounted(cfg, next, side, chunks + [chunk])
  {
    var direction, lane := side.Direction(), st.LaneOf(side);
    var permit := PermitStep(cfg, direction, lane, chunk, queue);
    PermitIn(cfg, direction, lane, chunk, queue, direction);
    InConcat(st.published, permit.records, direction);
    assert (chunks + [chunk])[..|chunks|] == chunks;
    FlattenAppend(LiveFindings(cfg, direction, chunks), LaneFindings(cfg, direction, lane, chunk));
  }

  lemma OtherAccounted(
    cfg: InspectConfig, st: RelayState, next: RelayState, side: Side, chunks: seq<Bytes>, lane: Lane, chunk: Bytes,
    queue: Queue)
    requires Accounted(cfg, st, side, chunks) && st.status == Running && Lossless(queue)
    requires var other := if side.Client? then Upstream else Client;
             var permit := PermitStep(cfg, other.Direction(), lane, chunk, queue);
             && permit.outcome != AuditRejected
             && next.LaneOf(side) == st.LaneOf(side) && next.published == st.published + permit.records
    ensures Accounted(cfg, next, side, chunks)
  {
    var other := if side.Client? then Upstream else Client;
    var permit := PermitStep(cfg, other.Direction(), lane, chunk, queue);
    PermitIn(cfg, other.Direction(), lane, chunk, queue, side.Direction());
    InConcat(st.published, permit.records, side.Direction());
  }

  /** A turn publishes what its branch publishes. */
  lemma TurnPublishes(cfg: RelayConfig, st: RelayState, event: Event)
    ensures var next := Turn(cfg, st, event);
            && (Enabled(cfg, st, event) && event.MovesBytes() ==>
                  var step := HalfEvent(cfg, st.Of(event.side), st.LaneOf(event.side), event);
                  && next.published == st.published + step.records && st.status == Running
                  && (step.status != Running ==> next.status == step.status))
            && (!(Enabled(cfg, st, event) && event.MovesBytes()) ==> next.published == st.published)
            && (!Enabled(cfg, st, event) ==> next == st)
            && (Enabled(cfg, st, event) && !event.MovesBytes() ==>
                  next.status != Terminated(InspectionBlocked) && st.status == Running)
  {
  }

  /** In every run whose records were all published, a direction's capture records are those of the
      chunks it inspected, and, unless inspection blocked, so are its finding records. */
  lemma {:induction false} RunAccounted(cfg: RelayConfig, start: nat, events: seq<Event>, side: Side)
    requires cfg.inspection.Some? && forall e | e in events :: DropsNothing(e)
    ensures var st := Run(cfg, start, events);
            st.status != Failed(AuditFailed) ==>
              Accounted(cfg.inspection.value, st, side, ForwardedChunks(cfg, start, events, side))
  {
    if events != [] {
      var k := |events| - 1;
      var front, event := events[..k], events[k];
      var st := Run(cfg, start, front);
      forall e | e in front ensures DropsNothing(e) {
        assert e in events;
      }
      RunAccounted(cfg, start, front, side);
      assert event in events;
      TurnFrame(cfg, st, event, side);
      TurnPublishes(cfg, st, event);
      if Enabled(cfg, st, event) && event.MovesBytes() && Run(cfg, start, events).status != Failed(AuditFailed) {
        TurnAccounted(cfg, st, event, side, ForwardedChunks(cfg, start, front, side));
      }
    }
  }

  lemma TurnAccounted(cfg: RelayConfig, st: RelayState, event: Event, side: Side, chunks: seq<Bytes>)
    requires cfg.inspection.Some? && Accounted(cfg.inspection.value, st, side, chunks) && DropsNothing(event)
    requires Enabled(cfg, st, event) && event.MovesBytes() && Turn(cfg, st, event).status != Failed(AuditFailed)
    ensures var chunk := ChunkOf(cfg, st.Of(event.side), event);
            Accounted(
              cfg.inspection.value, Turn(cfg, st, event), side,
              if event.side == side && chunk.Some? then chunks + [chunk.value] else chunks)
  {
    var icfg, next := cfg.inspection.value, Turn(cfg, st, event);
    var half, lane := st.Of(event.side), st.LaneOf(event.side);
    var chunk := ChunkOf(cfg, half, event);
    TurnFrame(cfg, st, event, side);
    TurnFrame(cfg, st, event, event.side);
    TurnPublishes(cfg, st, event);
    BranchPermit(cfg, half, lane, event);
    if chunk.None? {
      assert next.published == st.published;
      assert next.LaneOf(side) == st.LaneOf(side);
    } else if event.side == side {
      ChunkAccounted(icfg, st, next, side, chunks, chunk.value, event.env.queue);
    } else {
      OtherAccounted(icfg, st, next, side, chunks, lane, chunk.value, event.env.queue);
    }
  }

  // ---- Replaying a run ----

  /** In streaming mode with a capture limit within the inspection limit, everything captured was scanned. */
  lemma CaptureWithinScan(cfg: InspectConfig, direction: Direction, chunks: seq<Bytes>)
    requires cfg.mode == Streaming && cfg.capture.Some? && cfg.capture.value <= cfg.maximumInspected
    ensures Flatten(LiveCaptures(cfg, direction, chunks)) <= LaneAt(cfg, direction, chunks).seen
  {
    LiveCovers(cfg, direction, chunks);
  }

  /** Streaming and never blocked, everything published: once the run's captures are in the log, in order
      among the records of all other flows, replaying the drained segment reports for the stream exactly
      the findings the run published that end inside the captured prefix. */
  lemma ReplayReportsRun(
    cfg: RelayConfig, start: nat, events: seq<Event>, side: Side, key: ReplayScan.StreamKey,
    drain: AuditLog.Drain, envelopes: seq<AuditLog.Envelope>)
    requires cfg.inspection.Some? && forall e | e in events :: DropsNothing(e)
    requires var icfg := cfg.inspection.value;
             icfg.mode == Streaming && icfg.capture.Some? && icfg.capture.value <= icfg.maximumInspected
    requires var st := Run(cfg, start, events);
             && st.status != Failed(AuditFailed) && st.status != Terminated(InspectionBlocked)
             && SentChunks(envelopes, key) == CapturedIn(st.published, side.Direction())
    requires key.direction == side.Direction()
    ensures var icfg := cfg.inspection.value;
            var st := Run(cfg, start, events);
            var captured := Flatten(CapturedIn(st.published, side.Direction()));
            multiset(FindingsIn(st.published, side.Direction()))
            == multiset(ReplayFindings(icfg.program, AuditLog.Drained(drain, envelopes), key))
               + multiset(FindingsAfter(icfg.program.patterns, key.direction, st.LaneOf(side).seen, 0, |captured|))
  {
    var icfg := cfg.inspection.value;
    var chunks := ForwardedChunks(cfg, start, events, side);
    RunAccounted(cfg, start, events, side);
    CaptureWithinScan(icfg, key.direction, chunks);
    ReplayAgreesWithLive(icfg, key, chunks, drain, envelopes);
  }

  /** The same of decisions: evaluating the findings the run published gives what the replay emits for the
      stream, and beside it only the decisions on findings that end beyond the captured prefix. */
  lemma EmissionsReportRun(
    cfg: RelayConfig, start: nat, events: seq<Event>, side: Side, key: ReplayScan.StreamKey,
    drain: AuditLog.Drain, envelopes: seq<AuditLog.Envelope>, config: ReplayScan.ReplayConfig)
    requires cfg.inspection.Some? && forall e | e in events :: DropsNothing(e)
    requires var icfg := cfg.inspection.value;
             && icfg.mode == Streaming && icfg.capture.Some? && icfg.capture.value <= icfg.maximumInspected
             && config.program == icfg.program
    requires var st := Run(cfg, start, events);
             && st.status != Failed(AuditFailed) && st.status != Terminated(InspectionBlocked)
             && SentChunks(envelopes, key) == CapturedIn(st.published, side.Direction())
    requires key.direction == side.Direction()
    ensures var program := config.program;
            var st := Run(cfg, start, events);
            var captured := Flatten(CapturedIn(st.published, side.Direction()));
            var beyond := FindingsAfter(program.patterns, key.direction, st.LaneOf(side).seen, 0, |captured|);
            var emitted := EmittedFor(ReplayScan.Output(config, AuditLog.Drained(drain, envelopes)), key);
            multiset(ReplayScan.Evaluations(program, FindingsIn(st.published, side.Direction()), key.protocol))
            == multiset(emitted) + multiset(ReplayScan.Evaluations(program, beyond, key.protocol))
  {
    var st := Run(cfg, start, events);
    var captured := Flatten(CapturedIn(st.published, side.Direction()));
    var records := AuditLog.Drained(drain, envelopes);
    ReplayReportsRun(cfg, start, events, side, key, drain, envelopes);
    OutputForStream(config, records, key);
    EvaluationsSplit(
      config.program, FindingsIn(st.published, side.Direction()), ReplayFindings(config.program, records, key),
      FindingsAfter(config.program.patterns, key.direction, st.LaneOf(side).seen, 0, |captured|), key.protocol);
  }
}
