/** Live inspection against offline replay: on each stream, replaying the captured prefix reports
    what the live scanner reported for it. */
module ReplayAgreement {
  import opened Common
  import opened Domain
  import opened Inspection
  import opened FlowInspection
  import opened ReplayScan
  import AuditLog

  /** One direction's inspector after a run of permitted chunks. */
  function LaneAt(cfg: InspectConfig, direction: Direction, chunks: seq<Bytes>): Lane {
    if chunks == [] then NEW_LANE
    else
      var k := |chunks| - 1;
      LaneAfter(cfg, direction, LaneAt(cfg, direction, chunks[..k]), chunks[k])
  }

  /** The parts of the chunks that were scanned. */
  function Slices(cfg: InspectConfig, direction: Direction, chunks: seq<Bytes>): seq<Bytes> {
    if chunks == [] then []
    else
      var k := |chunks| - 1;
      Slices(cfg, direction, chunks[..k]) + [InspectSlice(cfg, LaneAt(cfg, direction, chunks[..k]), chunks[k])]
  }

  /** What the live scanner reported, chunk by chunk. */
  function LiveFindings(cfg: InspectConfig, direction: Direction, chunks: seq<Bytes>): seq<seq<Finding>> {
    if chunks == [] then []
    else
      var k := |chunks| - 1;
      LiveFindings(cfg, direction, chunks[..k])
      + [LaneFindings(cfg, direction, LaneAt(cfg, direction, chunks[..k]), chunks[k])]
  }

  /** The capture records published, as the bytes they hold. */
  function LiveCaptures(cfg: InspectConfig, direction: Direction, chunks: seq<Bytes>): seq<Bytes> {
    if chunks == [] then []
    else
      var k := |chunks| - 1;
      var slice := CaptureSlice(cfg, LaneAt(cfg, direction, chunks[..k]), chunks[k]);
      if slice == [] then LiveCaptures(cfg, direction, chunks[..k])
      else LiveCaptures(cfg, direction, chunks[..k]) + [slice]
  }

  // ---- The live side ----

  lemma {:induction false} LiveScansSlices(cfg: InspectConfig, direction: Direction, chunks: seq<Bytes>)
    ensures LaneAt(cfg, direction, chunks).seen == Flatten(Slices(cfg, direction, chunks))
    ensures LiveFindings(cfg, direction, chunks) == ScanChunks(cfg.program, direction, Slices(cfg, direction, chunks))
  {
    if chunks != [] {
      var k := |chunks| - 1;
      LiveScansSlices(cfg, direction, chunks[..k]);
      var before := Slices(cfg, direction, chunks[..k]);
      var slice := InspectSlice(cfg, LaneAt(cfg, direction, chunks[..k]), chunks[k]);
      FlattenAppend(before, slice);
      assert (before + [slice])[..|before|] == before;
    }
  }

  /** Scanning covers a prefix of the stream and stops only when its budget is spent. */
  predicate ScanCovers(cfg: InspectConfig, lane: Lane, stream: Bytes) {
    && lane.seen <= stream
    && lane.budget.inspected <= cfg.maximumInspected
    && (lane.budget.inspected < cfg.maximumInspected ==> lane.seen == stream)
    && (cfg.mode.Streaming? ==> |lane.seen| == lane.budget.inspected)
  }

  /** Capture covers a prefix of the stream as long as its limit. */
  predicate CaptureCovers(cfg: InspectConfig, lane: Lane, stream: Bytes, captured: Bytes) {
    && captured <= stream && |captured| == lane.budget.captured
    && lane.budget.captured == if cfg.capture.None? then 0 else Min(cfg.capture.value, |stream|)
  }

  lemma ScanCoversStep(cfg: InspectConfig, direction: Direction, lane: Lane, stream: Bytes, chunk: Bytes)
    requires ScanCovers(cfg, lane, stream)
    ensures ScanCovers(cfg, LaneAfter(cfg, direction, lane, chunk), stream + chunk)
  {
  }

  lemma CaptureCoversStep(
    cfg: InspectConfig, direction: Direction, lane: Lane, stream: Bytes, captured: Bytes, chunk: Bytes)
    requires CaptureCovers(cfg, lane, stream, captured)
    ensures CaptureCovers(
              cfg, LaneAfter(cfg, direction, lane, chunk), stream + chunk, captured + CaptureSlice(cfg, lane, chunk))
  {
  }

  lemma {:induction false} LiveCovers(cfg: InspectConfig, direction: Direction, chunks: seq<Bytes>)
    ensures var lane := LaneAt(cfg, direction, chunks);
            && ScanCovers(cfg, lane, Flatten(chunks))
            && CaptureCovers(cfg, lane, Flatten(chunks), Flatten(LiveCaptures(cfg, direction, chunks)))
  {
    if chunks != [] {
      var k := |chunks| - 1;
      LiveCovers(cfg, direction, chunks[..k]);
      var lane := LaneAt(cfg, direction, chunks[..k]);
      var captured := LiveCaptures(cfg, direction, chunks[..k]);
      var slice := CaptureSlice(cfg, lane, chunks[k]);
      ScanCoversStep(cfg, direction, lane, Flatten(chunks[..k]), chunks[k]);
      CaptureCoversStep(cfg, direction, lane, Flatten(chunks[..k]), Flatten(captured), chunks[k]);
      FlattenAppend(captured, slice);
    }
  }

  /** No captured piece is longer than the capture limit. */
  lemma {:induction false} CapturesFit(cfg: InspectConfig, direction: Direction, chunks: seq<Bytes>, i: nat)
    requires i < |LiveCaptures(cfg, direction, chunks)|
    ensures cfg.capture.Some? && |LiveCaptures(cfg, direction, chunks)[i]| <= cfg.capture.value
  {
    var k := |chunks| - 1;
    if i < |LiveCaptures(cfg, direction, chunks[..k])| {
      CapturesFit(cfg, direction, chunks[..k], i);
    }
  }

  // ---- The replay side ----

  /** What replay reports for one stream of a segment. */
  function ReplayFindings(program: Program, records: seq<Record>, key: StreamKey): seq<Finding> {
    if records == [] then []
    else
      var k := |records| - 1;
      if Belongs(records[k], key)
      then ReplayFindings(program, records[..k], key) + RecordFindings(program, records[..k], records[k])
      else ReplayFindings(program, records[..k], key)
  }

  /** Other streams interleaved with a stream do not change what is reported for it. */
  lemma {:induction false} ReplayScansOwnChunks(program: Program, records: seq<Record>, key: StreamKey)
    ensures ReplayFindings(program, records, key)
            == Flatten(ScanChunks(program, key.direction, ChunksOf(records, key)))
  {
    if records != [] {
      var k := |records| - 1;
      ReplayScansOwnChunks(program, records[..k], key);
      if Belongs(records[k], key) {
        var before := ChunksOf(records[..k], key);
        var bytes := records[k].unsigned.event.bytes;
        assert (before + [bytes])[..|before|] == before;
        FlattenAppend(ScanChunks(program, key.direction, before), RecordFindings(program, records[..k], records[k]));
      }
    }
  }

  predicate Sends(envelope: AuditLog.Envelope, key: StreamKey) {
    && envelope.event.PayloadPrefixCaptured?
    && key == StreamKey(envelope.context.session, envelope.context.transaction,
                        envelope.event.direction, envelope.event.protocol)
  }

  /** The captures published for one stream, in order, among the envelopes of every flow. */
  function SentChunks(envelopes: seq<AuditLog.Envelope>, key: StreamKey): seq<Bytes> {
    if envelopes == [] then []
    else
      var k := |envelopes| - 1;
      if Sends(envelopes[k], key) then SentChunks(envelopes[..k], key) + [envelopes[k].event.bytes]
      else SentChunks(envelopes[..k], key)
  }

  lemma ChunksAppend(records: seq<Record>, record: Record, key: StreamKey)
    ensures ChunksOf(records + [record], key)
            == if Belongs(record, key) then ChunksOf(records, key) + [record.unsigned.event.bytes]
               else ChunksOf(records, key)
  {
  }

  lemma OrdinaryChunks(drain: AuditLog.Drain, before: seq<Record>, e: AuditLog.Envelope, key: StreamKey)
    ensures ChunksOf(AuditLog.AppendOrdinary(drain, before, e), key)
            == if Sends(e, key) then ChunksOf(before, key) + [e.event.bytes] else ChunksOf(before, key)
  {
    var event := AuditLog.Redact(drain.redactor, e.event);
    ChunksAppend(before, AuditLog.NextRecord(drain.digest, before, e.context, event), key);
  }

  lemma CheckpointChunks(drain: AuditLog.Drain, before: seq<Record>, context: AuditLog.Context, key: StreamKey)
    requires drain.schedule.Some? && before != []
    ensures ChunksOf(AuditLog.AppendCheckpoint(drain, before, context), key) == ChunksOf(before, key)
  {
    var event := AuditLog.CheckpointEvent(drain, before);
    ChunksAppend(before, AuditLog.NextRecord(drain.digest, before, context, event), key);
  }

  /** Redaction, hashing and checkpoints leave every captured byte of every stream in the segment. */
  lemma {:induction false} DrainKeepsChunks(drain: AuditLog.Drain, envelopes: seq<AuditLog.Envelope>, key: StreamKey)
    ensures ChunksOf(AuditLog.Drained(drain, envelopes), key) == SentChunks(envelopes, key)
  {
    if envelopes != [] {
      var k := |envelopes| - 1;
      var before := AuditLog.Drained(drain, envelopes[..k]);
      DrainKeepsChunks(drain, envelopes[..k], key);
      OrdinaryChunks(drain, before, envelopes[k], key);
      if AuditLog.CheckpointDue(drain, |envelopes|) {
        CheckpointChunks(drain, AuditLog.AppendOrdinary(drain, before, envelopes[k]), envelopes[k].context, key);
      }
    }
  }

  // ---- Agreement ----

  /** Of a stream whose captures were all recorded, replay reports exactly the live findings that end
      inside the captured prefix when the scan reached that far; and all live findings, with those
      completed beyond the scan, when capture outran it. */
  lemma ReplayAgreesWithLive(
    cfg: InspectConfig, key: StreamKey, chunks: seq<Bytes>, drain: AuditLog.Drain, envelopes: seq<AuditLog.Envelope>)
    requires SentChunks(envelopes, key) == LiveCaptures(cfg, key.direction, chunks)
    ensures var live := multiset(Flatten(LiveFindings(cfg, key.direction, chunks)));
            var replay := multiset(ReplayFindings(cfg.program, AuditLog.Drained(drain, envelopes), key));
            var scanned := LaneAt(cfg, key.direction, chunks).seen;
            var captured := Flatten(LiveCaptures(cfg, key.direction, chunks));
            && (captured <= scanned || scanned <= captured)
            && (captured <= scanned ==>
                  live == replay + multiset(FindingsAfter(cfg.program.patterns, key.direction, scanned, 0, |captured|)))
            && (scanned <= captured ==>
                  replay == live + multiset(FindingsAfter(cfg.program.patterns, key.direction, captured, 0, |scanned|)))
  {
    var records := AuditLog.Drained(drain, envelopes);
    var scanned := LaneAt(cfg, key.direction, chunks).seen;
    var captured := Flatten(LiveCaptures(cfg, key.direction, chunks));
    DrainKeepsChunks(drain, envelopes, key);
    ReplayScansOwnChunks(cfg.program, records, key);
    ChunkingIrrelevant(cfg.program, key.direction, ChunksOf(records, key));
    LiveScansSlices(cfg, key.direction, chunks);
    ChunkingIrrelevant(cfg.program, key.direction, Slices(cfg, key.direction, chunks));
    LiveCovers(cfg, key.direction, chunks);
    ComparePrefixes(cfg.program, key.direction, Flatten(chunks), scanned, captured);
  }

  lemma ComparePrefixes(program: Program, direction: Direction, stream: Bytes, scanned: Bytes, captured: Bytes)
    requires scanned <= stream && captured <= stream
    ensures captured <= scanned || scanned <= captured
    ensures captured <= scanned ==>
              multiset(AllFindings(program, direction, scanned))
              == multiset(AllFindings(program, direction, captured))
                 + multiset(FindingsAfter(program.patterns, direction, scanned, 0, |captured|))
    ensures scanned <= captured ==>
              multiset(AllFindings(program, direction, captured))
              == multiset(AllFindings(program, direction, scanned))
                 + multiset(FindingsAfter(program.patterns, direction, captured, 0, |scanned|))
  {
    if captured <= scanned {
      ShorterFindings(program, direction, scanned, captured);
    }
    if scanned <= captured {
      ShorterFindings(program, direction, captured, scanned);
    }
  }

  lemma ShorterFindings(program: Program, direction: Direction, longer: Bytes, shorter: Bytes)
    requires shorter <= longer
    ensures multiset(AllFindings(program, direction, longer))
            == multiset(AllFindings(program, direction, shorter))
               + multiset(FindingsAfter(program.patterns, direction, longer, 0, |shorter|))
  {
    FindingsSplit(program.patterns, direction, longer, 0, 0, |shorter|);
    assert longer[..|shorter|] == shorter;
  }

  // ---- What the replay loop emits for a stream ----

  /** The decisions emitted for one stream's captured prefix, in order. */
  function EmittedFor(output: seq<Emitted>, key: StreamKey): seq<Decision> {
    if output == [] then []
    else
      var k := |output| - 1;
      if Belongs(output[k].record, key) then EmittedFor(output[..k], key) + [output[k].decision]
      else EmittedFor(output[..k], key)
  }

  lemma {:induction false} EmittedForConcat(a: seq<Emitted>, b: seq<Emitted>, key: StreamKey)
    ensures EmittedFor(a + b, key) == EmittedFor(a, key) + EmittedFor(b, key)
  {
    if b == [] {
      assert a + b == a;
    } else {
      EmittedForConcat(a, b[..|b| - 1], key);
      ConcatFront(a, b);
    }
  }

  lemma {:induction false} EmissionsFor(record: Record, source: Source, decisions: seq<Decision>, key: StreamKey)
    ensures EmittedFor(Emissions(record, source, decisions), key) == if Belongs(record, key) then decisions else []
  {
    if decisions != [] {
      var front, last := decisions[..|decisions| - 1], decisions[|decisions| - 1];
      EmissionsFor(record, source, front, key);
      var before := Emissions(record, source, front);
      assert (before + [Emitted(record, source, last)])[..|before|] == before;
      assert decisions == front + [last];
    }
  }

  lemma {:induction false} EvaluationsConcat(program: Program, a: seq<Finding>, b: seq<Finding>, protocol: Protocol)
    ensures Evaluations(program, a + b, protocol)
            == Evaluations(program, a, protocol) + Evaluations(program, b, protocol)
  {
    if b == [] {
      assert a + b == a;
    } else {
      EvaluationsConcat(program, a, b[..|b| - 1], protocol);
      ConcatFront(a, b);
    }
  }

  /** For every stream the loop emits exactly the policy's decisions on the findings replayed for it. */
  lemma {:induction false} OutputForStream(config: ReplayConfig, records: seq<Record>, key: StreamKey)
    ensures EmittedFor(Output(config, records), key)
            == Evaluations(config.program, ReplayFindings(config.program, records, key), key.protocol)
  {
    if records != [] {
      var k := |records| - 1;
      var before, record := records[..k], records[k];
      OutputForStream(config, before, key);
      EmittedForConcat(Output(config, before), RecordOutput(config, before, record), key);
      RecordOutputFor(config, before, record, key);
      if Belongs(record, key) {
        EvaluationsConcat(
          config.program, ReplayFindings(config.program, before, key),
          RecordFindings(config.program, before, record), key.protocol);
      }
    }
  }

  lemma RecordOutputFor(config: ReplayConfig, before: seq<Record>, record: Record, key: StreamKey)
    ensures EmittedFor(RecordOutput(config, before, record), key)
            == if Belongs(record, key)
               then Evaluations(config.program, RecordFindings(config.program, before, record), key.protocol) else []
  {
    var event := record.unsigned.event;
    if Captures(record) {
      EmissionsFor(
        record, CapturedPrefix,
        Evaluations(config.program, RecordFindings(config.program, before, record), event.protocol), key);
    } else if event.FactsObserved? {
      EmissionsFor(record, RecordedFacts, FactsDecisions(config, event.facts), key);
    }
  }

  function Removed<T>(s: seq<T>, j: nat): (r: seq<T>)
    requires j < |s|
    ensures |r| == |s| - 1
  {
    s[..j] + s[j + 1..]
  }

  lemma TakeOut<T>(s: seq<T>, j: nat)
    requires j < |s|
    ensures multiset(s) == multiset(Removed(s, j)) + multiset{s[j]}
  {
    assert s == s[..j] + ([s[j]] + s[j + 1..]);
  }

  lemma Cancel<T>(m: multiset<T>, n: multiset<T>, x: T)
    requires m + multiset{x} == n + multiset{x}
    ensures m == n
  {
    assert m == m + multiset{x} - multiset{x} && n == n + multiset{x} - multiset{x};
  }

  /** The first element of a sequence has a partner in every permutation of it. */
  lemma Partner<T>(a: seq<T>, b: seq<T>) returns (j: nat)
    requires multiset(a) == multiset(b) && a != []
    ensures j < |b| && b[j] == a[0] && multiset(Removed(a, 0)) == multiset(Removed(b, j))
  {
    assert a[0] in multiset(b);
    j :| 0 <= j < |b| && b[j] == a[0];
    TakeOut(a, 0);
    TakeOut(b, j);
    Cancel(multiset(Removed(a, 0)), multiset(Removed(b, j)), a[0]);
  }

  lemma EvaluationsTakeOut(program: Program, s: seq<Finding>, j: nat, protocol: Protocol)
    requires j < |s|
    ensures multiset(Evaluations(program, s, protocol))
            == multiset(Evaluations(program, Removed(s, j), protocol))
               + multiset{Evaluate(program, s[j], protocol)}
  {
    var left, right := s[..j], s[j + 1..];
    assert s == left + ([s[j]] + right);
    EvaluationsConcat(program, left, right, protocol);
    EvaluationsConcat(program, left, [s[j]] + right, protocol);
    EvaluationsConcat(program, [s[j]], right, protocol);
    EvaluationsOne(program, s[j], protocol);
  }

  lemma {:induction false} EvaluationsPermute(program: Program, a: seq<Finding>, b: seq<Finding>, protocol: Protocol)
    requires multiset(a) == multiset(b)
    ensures multiset(Evaluations(program, a, protocol)) == multiset(Evaluations(program, b, protocol))
    decreases |a|
  {
    if a == [] {
      assert |multiset(b)| == 0;
    } else {
      var j := Partner(a, b);
      EvaluationsPermute(program, Removed(a, 0), Removed(b, j), protocol);
      EvaluationsTakeOut(program, a, 0, protocol);
      EvaluationsTakeOut(program, b, j, protocol);
    }
  }

  lemma EvaluationsOne(program: Program, finding: Finding, protocol: Protocol)
    ensures Evaluations(program, [finding], protocol) == [Evaluate(program, finding, protocol)]
  {
    assert [finding][..0] == [];
  }

  lemma EvaluationsSplit(program: Program, whole: seq<Finding>, a: seq<Finding>, b: seq<Finding>, protocol: Protocol)
    requires multiset(whole) == multiset(a) + multiset(b)
    ensures multiset(Evaluations(program, whole, protocol))
            == multiset(Evaluations(program, a, protocol)) + multiset(Evaluations(program, b, protocol))
  {
    assert multiset(whole) == multiset(a + b);
    EvaluationsPermute(program, whole, a + b, protocol);
    EvaluationsConcat(program, a, b, protocol);
  }

  /** The decisions emitted for a stream when a drained segment is replayed, against the decisions made
      live: the same ones, except for findings that only the longer of scan and capture completes. */
  lemma EmissionsAgreeWithLive(
    cfg: InspectConfig, key: StreamKey, chunks: seq<Bytes>, drain: AuditLog.Drain, envelopes: seq<AuditLog.Envelope>,
    config: ReplayConfig)
    requires SentChunks(envelopes, key) == LiveCaptures(cfg, key.direction, chunks)
    requires config.program == cfg.program
    ensures var live := multiset(
              Evaluations(cfg.program, Flatten(LiveFindings(cfg, key.direction, chunks)), key.protocol));
            var emitted := multiset(EmittedFor(Output(config, AuditLog.Drained(drain, envelopes)), key));
            var scanned := LaneAt(cfg, key.direction, chunks).seen;
            var captured := Flatten(LiveCaptures(cfg, key.direction, chunks));
            && (captured <= scanned ==> live == emitted + multiset(Evaluations(
                  cfg.program, FindingsAfter(cfg.program.patterns, key.direction, scanned, 0, |captured|), key.protocol)))
            && (scanned <= captured ==> emitted == live + multiset(Evaluations(
                  cfg.program, FindingsAfter(cfg.program.patterns, key.direction, captured, 0, |scanned|), key.protocol)))
  {
    var records := AuditLog.Drained(drain, envelopes);
    var scanned := LaneAt(cfg, key.direction, chunks).seen;
    var captured := Flatten(LiveCaptures(cfg, key.direction, chunks));
    var live := Flatten(LiveFindings(cfg, key.direction, chunks));
    var replayed := ReplayFindings(cfg.program, records, key);
    ReplayAgreesWithLive(cfg, key, chunks, drain, envelopes);
    OutputForStream(config, records, key);
    if captured <= scanned {
      EvaluationsSplit(
        cfg.program, live, replayed,
        FindingsAfter(cfg.program.patterns, key.direction, scanned, 0, |captured|), key.protocol);
    }
    if scanned <= captured {
      EvaluationsSplit(
        cfg.program, replayed, live,
        FindingsAfter(cfg.program.patterns, key.direction, captured, 0, |scanned|), key.protocol);
    }
  }
}
