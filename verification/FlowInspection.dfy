/** Per-flow inspection: one scanner and one set of budgets per direction, the
    records published for each chunk, and the verdict on forwarding it. */
module FlowInspection {
  import opened Common
  import opened AuditQueue
  import opened Domain
  import opened Inspection

  datatype InspectConfig = InspectConfig(
    program: Program,
    mode: InspectionMode,
    enforcement: EnforcementMode,
    protocol: Protocol,
    maximumInspected: nat,
    capture: Option<nat>,
    uiLimit: Option<nat>)
  {
    /** Byte budgets are machine words. */
    predicate Valid() {
      maximumInspected <= U64_MAX
    }
  }

  datatype FlowRecord =
    | PayloadPrefixCaptured(direction: Direction, protocol: Protocol, bytes: Bytes)
    | FindingDetected(finding: Finding)
    | FindingFacts(finding: Finding, protocol: Protocol)
    | InspectionEvaluated(decision: Decision)
    | ActionExecuted(decision: Decision)

  datatype BodyPrefix = BodyPrefix(direction: Direction, bytes: Bytes, offset: nat, observed: nat, truncated: bool)

  /** The byte counters of one direction. */
  datatype Budget = Budget(inspected: nat, captured: nat, uiObserved: nat, uiRetained: nat, uiReported: bool)

  const NEW_BUDGET := Budget(0, 0, 0, 0, false)

  /** Everything the inspector remembers about one direction. `seen` is what its scanner has scanned. */
  datatype Lane = Lane(budget: Budget, seen: Bytes)

  const NEW_LANE := Lane(NEW_BUDGET, [])

  predicate ValidLane(cfg: InspectConfig, lane: Lane) {
    |lane.seen| <= lane.budget.inspected <= cfg.maximumInspected
  }

  function CaptureSlice(cfg: InspectConfig, lane: Lane, bytes: Bytes): Bytes {
    if cfg.capture.None? then [] else bytes[..Min(SaturatingSub(cfg.capture.value, lane.budget.captured), |bytes|)]
  }

  function InspectSlice(cfg: InspectConfig, lane: Lane, bytes: Bytes): Bytes {
    bytes[..Min(SaturatingSub(cfg.maximumInspected, lane.budget.inspected), |bytes|)]
  }

  function UiRetained(cfg: InspectConfig, lane: Lane, bytes: Bytes): nat {
    if cfg.uiLimit.None? then 0 else Min(SaturatingSub(cfg.uiLimit.value, lane.budget.uiRetained), |bytes|)
  }

  /** The prefix event owed to a live observer, if any: silent once truncation has been reported. */
  function UiEvents(cfg: InspectConfig, direction: Direction, lane: Lane, bytes: Bytes): seq<BodyPrefix> {
    var retained := UiRetained(cfg, lane, bytes);
    var truncated := retained < |bytes|;
    var offset := lane.budget.uiObserved;
    if cfg.uiLimit.None? || (retained == 0 && (!truncated || lane.budget.uiReported)) then []
    else [BodyPrefix(direction, bytes[..retained], offset, SaturatingAdd(offset, |bytes|), truncated)]
  }

  function LaneAfterUi(cfg: InspectConfig, direction: Direction, lane: Lane, bytes: Bytes): Lane {
    var events := UiEvents(cfg, direction, lane, bytes);
    lane.(budget := lane.budget.(
    uiObserved := SaturatingAdd(lane.budget.uiObserved, |bytes|),
    uiRetained := lane.budget.uiRetained + UiRetained(cfg, lane, bytes),
    uiReported := lane.budget.uiReported || (events != [] && events[0].truncated)))
  }

  function LaneAfterCapture(cfg: InspectConfig, direction: Direction, lane: Lane, bytes: Bytes): Lane {
    var after := LaneAfterUi(cfg, direction, lane, bytes);
    after.(budget := after.budget.(captured := lane.budget.captured + |CaptureSlice(cfg, lane, bytes)|))
  }

  /** Preflight spends the whole budget on the first inspected buffer; streaming spends what it scans. */
  function Scanned(cfg: InspectConfig, lane: Lane, slice: Bytes): Lane {
    var spent := if cfg.mode.Preflight? then cfg.maximumInspected else lane.budget.inspected + |slice|;
    Lane(lane.budget.(inspected := spent), lane.seen + slice)
  }

  function LaneAfter(cfg: InspectConfig, direction: Direction, lane: Lane, bytes: Bytes): Lane {
    var slice := InspectSlice(cfg, lane, bytes);
    var captured := LaneAfterCapture(cfg, direction, lane, bytes);
    if slice == [] then captured else Scanned(cfg, captured, slice)
  }

  function LaneFindings(cfg: InspectConfig, direction: Direction, lane: Lane, bytes: Bytes): seq<Finding> {
    NewFindings(cfg.program, direction, lane.seen, InspectSlice(cfg, lane, bytes))
  }

  predicate Blocks(cfg: InspectConfig, finding: Finding) {
    !Permits(cfg.enforcement, Evaluate(cfg.program, finding, cfg.protocol))
  }

  function RecordsOf(cfg: InspectConfig, finding: Finding): seq<FlowRecord> {
    var decision := Evaluate(cfg.program, finding, cfg.protocol);
    [FindingDetected(finding), FindingFacts(finding, cfg.protocol), InspectionEvaluated(decision)]
    + if Blocks(cfg, finding) then [ActionExecuted(decision)] else []
  }

  /** Findings are published in order up to and including the first one that blocks. */
  function FindingRecords(cfg: InspectConfig, findings: seq<Finding>): seq<FlowRecord> {
    if findings == [] then []
    else if Blocks(cfg, findings[0]) then RecordsOf(cfg, findings[0])
    else RecordsOf(cfg, findings[0]) + FindingRecords(cfg, findings[1..])
  }

  function CaptureRecords(cfg: InspectConfig, direction: Direction, lane: Lane, bytes: Bytes): seq<FlowRecord> {
    var slice := CaptureSlice(cfg, lane, bytes);
    if slice == [] then [] else [PayloadPrefixCaptured(direction, cfg.protocol, slice)]
  }

  predicate ChunkPermitted(cfg: InspectConfig, direction: Direction, lane: Lane, bytes: Bytes) {
    forall f | f in LaneFindings(cfg, direction, lane, bytes) :: !Blocks(cfg, f)
  }

  datatype PermitOutcome = Permitted | Blocked | AuditRejected

  datatype PermitResult = PermitResult(
    lane: Lane, records: seq<FlowRecord>, ui: seq<BodyPrefix>, outcome: PermitOutcome)

  /** The effect of one chunk, given how the audit queue treats its records. A refused capture
      record stops the chunk before it is scanned. */
  function PermitStep(cfg: InspectConfig, direction: Direction, lane: Lane, bytes: Bytes, queue: Queue): PermitResult {
    var captured := CaptureRecords(cfg, direction, lane, bytes);
    var owed := captured + FindingRecords(cfg, LaneFindings(cfg, direction, lane, bytes));
    PermitResult(
      if Refuses(queue, |captured|) then LaneAfterCapture(cfg, direction, lane, bytes)
      else LaneAfter(cfg, direction, lane, bytes),
      Delivered(queue, owed),
      UiEvents(cfg, direction, lane, bytes),
      if Refuses(queue, |owed|) then AuditRejected
      else if ChunkPermitted(cfg, direction, lane, bytes) then Permitted
      else Blocked)
  }

  /** Fail-open publishing never fails a chunk and never changes what happens to it: whichever records
      are dropped, all else is as with a queue that drops none, and the records that do get through are
      those, less the dropped ones, in their order. */
  lemma DropsChangeNothing(
    cfg: InspectConfig, direction: Direction, lane: Lane, bytes: Bytes, accepts: seq<bool>)
    ensures var open := PermitStep(cfg, direction, lane, bytes, FailOpen(accepts));
            var full := PermitStep(cfg, direction, lane, bytes, FailOpen([]));
            && open == full.(records := open.records) && open.outcome != AuditRejected
            && Subsequence(open.records, full.records)
  {
    var owed := CaptureRecords(cfg, direction, lane, bytes)
                + FindingRecords(cfg, LaneFindings(cfg, direction, lane, bytes));
    LosslessDelivers(FailOpen([]), owed);
    DeliveredInOrder(FailOpen(accepts), owed);
  }

  /** A pattern that policy turns into a refusal for this direction. */
  predicate Denies(cfg: InspectConfig, direction: Direction, p: InspectionPattern) {
    p in cfg.program.patterns && p.action.Deny? && direction in p.directions
  }

  /** No denied pattern occurs anywhere in `stream`. */
  ghost predicate Clean(cfg: InspectConfig, direction: Direction, stream: Bytes) {
    forall p: InspectionPattern, s: nat | Denies(cfg, direction, p) :: !OccursAt(stream, p.bytes, s)
  }

  lemma CleanPrefix(cfg: InspectConfig, direction: Direction, stream: Bytes, prefix: Bytes)
    requires prefix <= stream && Clean(cfg, direction, stream)
    ensures Clean(cfg, direction, prefix)
  {
    forall p: InspectionPattern, s: nat | Denies(cfg, direction, p)
      ensures !OccursAt(prefix, p.bytes, s)
    {
      assert !OccursAt(stream, p.bytes, s);
      if s + |p.bytes| <= |prefix| {
        assert prefix[s..s + |p.bytes|] == stream[s..s + |p.bytes|];
      }
    }
  }

  /** Under enforcement a chunk is permitted exactly when scanning it leaves the scanned stream clean. */
  lemma PermittedIffClean(cfg: InspectConfig, direction: Direction, lane: Lane, bytes: Bytes)
    requires cfg.enforcement == Enforce && Clean(cfg, direction, lane.seen)
    ensures ChunkPermitted(cfg, direction, lane, bytes)
            <==> Clean(cfg, direction, lane.seen + InspectSlice(cfg, lane, bytes))
  {
    var slice := InspectSlice(cfg, lane, bytes);
    var stream := lane.seen + slice;
    var patterns := cfg.program.patterns;
    if ChunkPermitted(cfg, direction, lane, bytes) {
      forall p: InspectionPattern, s: nat | Denies(cfg, direction, p)
        ensures !OccursAt(stream, p.bytes, s)
      {
        if OccursAt(stream, p.bytes, s) {
          if s + |p.bytes| <= |lane.seen| {
            assert stream[s..s + |p.bytes|] == lane.seen[s..s + |p.bytes|];
            assert OccursAt(lane.seen, p.bytes, s);
          } else {
            var i: nat :| i < |patterns| && patterns[i] == p;
            var f := FindingAt(p, direction, 0, s);
            assert Fires(patterns[i], direction, stream, |lane.seen|, s);
            FindingsExact(patterns, direction, stream, 0, |lane.seen|, f);
            FindPatternExact(patterns, i);
            assert Blocks(cfg, f);
          }
        }
      }
    } else {
      var f :| f in LaneFindings(cfg, direction, lane, bytes) && Blocks(cfg, f);
      FindingsExact(patterns, direction, stream, 0, |lane.seen|, f);
      var i: nat, s: nat :| i < |patterns| && Fires(patterns[i], direction, stream, |lane.seen|, s)
                            && f == FindingAt(patterns[i], direction, 0, s);
      FindPatternExact(patterns, i);
      assert Denies(cfg, direction, patterns[i]) && OccursAt(stream, patterns[i].bytes, s);
    }
  }

  /** One finding's records and the rest: nothing more is owed once it blocks. */
  lemma OwedStep(cfg: InspectConfig, findings: seq<Finding>, i: nat)
    requires i < |findings|
    ensures FindingRecords(cfg, findings[i..])
            == if Blocks(cfg, findings[i]) then RecordsOf(cfg, findings[i])
               else RecordsOf(cfg, findings[i]) + FindingRecords(cfg, findings[i + 1..])
  {
    assert findings[i..][1..] == findings[i + 1..];
  }

  /** Publishes findings in order until the queue refuses or a finding blocks the flow. */
  method PublishFindings(cfg: InspectConfig, findings: seq<Finding>, queue: Queue)
    returns (outcome: PermitOutcome, records: seq<FlowRecord>)
    ensures var owed := FindingRecords(cfg, findings);
            records == Delivered(queue, owed) && (outcome == AuditRejected <==> Refuses(queue, |owed|))
    ensures outcome != AuditRejected ==>
              (outcome == Permitted <==> forall f | f in findings :: !Blocks(cfg, f))
  {
    ghost var owed := FindingRecords(cfg, findings);
    var left := queue;
    records := [];
    assert findings[0..] == findings;
    for i := 0 to |findings|
      invariant forall k | 0 <= k < i :: !Blocks(cfg, findings[k])
      invariant Remains(queue, owed, records, left, FindingRecords(cfg, findings[i..]))
    {
      var next := RecordsOf(cfg, findings[i]);
      OwedStep(cfg, findings, i);
      ghost var rest := if Blocks(cfg, findings[i]) then [] else FindingRecords(cfg, findings[i + 1..]);
      assert next + [] == next;
      RemainsStep(queue, owed, records, left, next, rest);
      records := records + Delivered(left, next);
      if Refuses(left, |next|) {
        return AuditRejected, records;
      }
      left := After(left, |next|);
      if Blocks(cfg, findings[i]) {
        return Blocked, records;
      }
    }
    outcome := Permitted;
  }

  /** The inspector's state for one direction. Its per-direction counters are only ever indexed
      by the direction of the call, so each direction is an object of its own. */
  class FlowInspector {
    const cfg: InspectConfig
    const direction: Direction
    const scanner: StreamScanner
    var budget: Budget

    ghost predicate Valid()
      reads this, scanner
    {
      && cfg.Valid()
      && scanner.Valid() && scanner.program == cfg.program && scanner.direction == direction
      && ValidLane(cfg, LaneView())
    }

    ghost function LaneView(): Lane
      reads this, scanner
    {
      Lane(budget, scanner.seen)
    }

    constructor (cfg: InspectConfig, direction: Direction)
      requires cfg.Valid()
      ensures Valid() && fresh(scanner) && LaneView() == NEW_LANE
      ensures this.cfg == cfg && this.direction == direction
    {
      this.cfg, this.direction := cfg, direction;
      scanner := new StreamScanner(cfg.program, direction);
      budget := NEW_BUDGET;
    }

    method PublishUiPrefix(bytes: Bytes) returns (ui: seq<BodyPrefix>)
      requires Valid()
      modifies this
      ensures Valid()
      ensures LaneView() == LaneAfterUi(cfg, direction, old(LaneView()), bytes)
      ensures ui == UiEvents(cfg, direction, old(LaneView()), bytes)
    {
      var offset := budget.uiObserved;
      budget := budget.(uiObserved := SaturatingAdd(offset, |bytes|));
      ui := [];
      if cfg.uiLimit.None? {
        return;
      }
      var remaining := SaturatingSub(cfg.uiLimit.value, budget.uiRetained);
      var retained := Min(remaining, |bytes|);
      budget := budget.(uiRetained := budget.uiRetained + retained);
      var truncated := retained < |bytes|;
      if retained == 0 && (!truncated || budget.uiReported) {
        return;
      }
      if truncated {
        budget := budget.(uiReported := true);
      }
      ui := [BodyPrefix(direction, bytes[..retained], offset, budget.uiObserved, truncated)];
    }

    /** Retains the chunk's share of the capture prefix and returns the record owed for it. */
    method Capture(bytes: Bytes, ghost before: Lane) returns (records: seq<FlowRecord>)
      requires Valid() && LaneView() == LaneAfterUi(cfg, direction, before, bytes)
      modifies this
      ensures Valid() && LaneView() == LaneAfterCapture(cfg, direction, before, bytes)
      ensures records == CaptureRecords(cfg, direction, before, bytes)
    {
      records := [];
      if cfg.capture.Some? {
        var count := Min(SaturatingSub(cfg.capture.value, budget.captured), |bytes|);
        if count != 0 {
          budget := budget.(captured := budget.captured + count);
          records := [PayloadPrefixCaptured(direction, cfg.protocol, bytes[..count])];
        }
      }
    }

    /** Scans what the inspection budget allows of the chunk. */
    method Scan(bytes: Bytes, ghost before: Lane) returns (findings: seq<Finding>)
      requires Valid() && LaneView() == LaneAfterCapture(cfg, direction, before, bytes)
      modifies this, scanner
      ensures Valid() && LaneView() == LaneAfter(cfg, direction, before, bytes)
      ensures findings == LaneFindings(cfg, direction, before, bytes)
    {
      var count := Min(SaturatingSub(cfg.maximumInspected, budget.inspected), |bytes|);
      var slice := bytes[..count];
      assert slice == InspectSlice(cfg, before, bytes);
      if count == 0 {
        assert before.seen + slice == before.seen;
        NothingNewWithoutBytes(cfg.program.patterns, direction, before.seen, 0);
        return [];
      }
      var spent := if cfg.mode.Preflight? then cfg.maximumInspected else budget.inspected + count;
      budget := budget.(inspected := spent);
      findings := scanner.Inspect(slice);
    }

    /** Publishes the chunk's records and reports whether policy permits forwarding it. */
    method PermitChunk(bytes: Bytes, queue: Queue)
      returns (outcome: PermitOutcome, records: seq<FlowRecord>, ui: seq<BodyPrefix>)
      requires Valid()
      modifies this, scanner
      ensures Valid()
      ensures PermitResult(LaneView(), records, ui, outcome)
              == PermitStep(cfg, direction, old(LaneView()), bytes, queue)
    {
      ghost var before := LaneView();
      ui := PublishUiPrefix(bytes);
      var captured := Capture(bytes, before);
      DeliveredConcat(queue, captured, FindingRecords(cfg, LaneFindings(cfg, direction, before, bytes)));
      records := Delivered(queue, captured);
      if Refuses(queue, |captured|) {
        return AuditRejected, records, ui;
      }
      var findings := Scan(bytes, before);
      var more;
      outcome, more := PublishFindings(cfg, findings, After(queue, |captured|));
      records := records + more;
    }
  }
}
