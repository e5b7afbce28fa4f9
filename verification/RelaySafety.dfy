/** Enforced inspection over whole relay runs: a denied pattern never gets through. */
module RelaySafety {
  import opened Common
  import opened AuditQueue
  import opened Domain
  import opened Inspection
  import opened FlowInspection
  import opened Relay
  import opened RelayProperties

  /** Inspection is on and enforced. */
  predicate Enforcing(cfg: RelayConfig) {
    cfg.Valid() && cfg.inspection.Some? && cfg.inspection.value.enforcement == Enforce
  }

  /** How a live direction's inspector relates to what the direction has written. Streaming has
      scanned exactly the budgeted prefix; preflight has scanned exactly the released buffer. */
  ghost predicate Guards(cfg: InspectConfig, side: Side, half: Half, lane: Lane) {
    var written := Written(half.wire);
    && ValidLane(cfg, lane)
    && Clean(cfg, side.Direction(), lane.seen)
    && if cfg.mode.Streaming? then
         lane.seen == GuardedPrefix(cfg, half) && lane.budget.inspected == |lane.seen|
       else if half.preflight.Pending? || written == [] then
         lane.seen == [] && lane.budget.inspected == 0 && (half.preflight.Pending? || !half.open)
       else
         ScannedFirst(cfg, half, lane) && lane.budget.inspected == cfg.maximumInspected
  }

  /** The first thing written is the scanned buffer, whole and within the limit. */
  predicate ScannedFirst(cfg: InspectConfig, half: Half, lane: Lane) {
    && lane.seen != [] && |lane.seen| <= cfg.maximumInspected
    && half.wire != [] && half.wire[0] == Write(lane.seen)
  }

  /** The first thing written is a non-empty part of the scanned buffer. */
  predicate BeginsScanned(cfg: InspectConfig, half: Half, lane: Lane) {
    && lane.seen != [] && |lane.seen| <= cfg.maximumInspected
    && half.wire != [] && half.wire[0].Write? && half.wire[0].bytes != [] && half.wire[0].bytes <= lane.seen
  }

  /** Streaming: the budgeted prefix of what was written is clean. Preflight: nothing was written,
      or the released buffer is clean and what was written begins with it or a part of it. */
  ghost predicate Safe(cfg: InspectConfig, side: Side, half: Half, lane: Lane) {
    if cfg.mode.Streaming? then Clean(cfg, side.Direction(), GuardedPrefix(cfg, half))
    else Written(half.wire) != [] ==> Clean(cfg, side.Direction(), lane.seen) && BeginsScanned(cfg, half, lane)
  }

  // ---- One chunk ----

  /** A chunk that gets past the inspector was scanned as far as the budget allows, and permitted. */
  lemma PermittedChunk(cfg: InspectConfig, direction: Direction, lane: Lane, bytes: Bytes, queue: Queue)
    requires PermitStep(cfg, direction, lane, bytes, queue).outcome == Permitted
    ensures ChunkPermitted(cfg, direction, lane, bytes)
    ensures var slice := InspectSlice(cfg, lane, bytes);
            var after := PermitStep(cfg, direction, lane, bytes, queue).lane;
            && after.seen == lane.seen + slice
            && after.budget.inspected ==
               if slice == [] then lane.budget.inspected
               else if cfg.mode.Preflight? then cfg.maximumInspected
               else lane.budget.inspected + |slice|
  {
  }

  lemma TakeExtends(written: Bytes, chunk: Bytes, n: nat)
    ensures var taken := written[..Min(n, |written|)];
            var total := written + chunk;
            taken + chunk[..Min(SaturatingSub(n, |taken|), |chunk|)] == total[..Min(n, |total|)]
  {
  }

  lemma TakeMonotone(a: Bytes, b: Bytes, n: nat)
    requires a <= b
    ensures a[..Min(n, |a|)] <= b[..Min(n, |b|)]
  {
  }

  /** Streaming: forwarding keeps the scanned prefix in step with the wire. */
  lemma StreamingForward(
    cfg: InspectConfig, side: Side, half: Half, next: Half, status: Status, lane: Lane, bytes: Bytes, queue: Queue)
    requires cfg.enforcement == Enforce && cfg.mode == Streaming && Guards(cfg, side, half, lane)
    requires PermitStep(cfg, side.Direction(), lane, bytes, queue).outcome == Permitted
    requires WroteChunk(half, next, status, bytes)
    ensures var after := PermitStep(cfg, side.Direction(), lane, bytes, queue).lane;
            Safe(cfg, side, next, after) && (status == Running ==> Guards(cfg, side, next, after))
  {
    var direction := side.Direction();
    var after := PermitStep(cfg, direction, lane, bytes, queue).lane;
    PermittedChunk(cfg, direction, lane, bytes, queue);
    PermittedIffClean(cfg, direction, lane, bytes);
    TakeExtends(Written(half.wire), bytes, cfg.maximumInspected);
    TakeMonotone(Written(next.wire), Written(half.wire) + bytes, cfg.maximumInspected);
    CleanPrefix(cfg, direction, after.seen, GuardedPrefix(cfg, next));
  }

  lemma OnlyWrite(wire: seq<WireOp>)
    requires |wire| <= 1
    ensures Written(wire) == if wire == [] || !wire[0].Write? then [] else wire[0].bytes
  {
    if wire != [] {
      assert wire[..0] == [];
    }
  }

  /** Preflight: the first buffer released is scanned whole; nothing after it is scanned. */
  lemma PreflightForward(
    cfg: InspectConfig, side: Side, half: Half, next: Half, status: Status, lane: Lane, bytes: Bytes, queue: Queue)
    requires cfg.enforcement == Enforce && cfg.mode == Preflight && ValidLane(cfg, lane)
    requires Clean(cfg, side.Direction(), lane.seen)
    requires next.preflight.Released? && bytes != []
    requires if Written(half.wire) == []
             then half.wire == [] && lane.seen == [] && lane.budget.inspected == 0 && |bytes| <= cfg.maximumInspected
             else ScannedFirst(cfg, half, lane) && lane.budget.inspected == cfg.maximumInspected
    requires PermitStep(cfg, side.Direction(), lane, bytes, queue).outcome == Permitted
    requires OneMoreWrite(half, next, status) && WroteChunk(half, next, status, bytes)
    ensures var after := PermitStep(cfg, side.Direction(), lane, bytes, queue).lane;
            Safe(cfg, side, next, after) && (status == Running ==> Guards(cfg, side, next, after))
  {
    var direction := side.Direction();
    var slice := InspectSlice(cfg, lane, bytes);
    PermittedChunk(cfg, direction, lane, bytes, queue);
    PermittedIffClean(cfg, direction, lane, bytes);
    if Written(half.wire) == [] {
      assert slice == bytes && lane.seen + slice == bytes;
      OnlyWrite(next.wire);
    } else {
      assert slice == [] && lane.seen + slice == lane.seen;
    }
  }

  /** Whatever follows the released buffer in preflight mode is permitted without being scanned. */
  lemma SpentBudgetPermits(cfg: InspectConfig, direction: Direction, lane: Lane, bytes: Bytes)
    requires lane.budget.inspected >= cfg.maximumInspected
    ensures ChunkPermitted(cfg, direction, lane, bytes)
    ensures LaneAfter(cfg, direction, lane, bytes).seen == lane.seen
  {
    assert InspectSlice(cfg, lane, bytes) == [];
    assert lane.seen + [] == lane.seen;
    NothingNewWithoutBytes(cfg.program.patterns, direction, lane.seen, 0);
  }

  /** A released direction about to forward `chunk` is guarded for it. */
  ghost predicate ReadyFor(cfg: InspectConfig, side: Side, half: Half, lane: Lane, chunk: Bytes) {
    var written := Written(half.wire);
    && half.preflight.Released? && chunk != []
    && ValidLane(cfg, lane) && Clean(cfg, side.Direction(), lane.seen)
    && if cfg.mode.Streaming? then
         lane.seen == GuardedPrefix(cfg, half) && lane.budget.inspected == |lane.seen|
       else if written == [] then
         half.wire == [] && lane.seen == [] && lane.budget.inspected == 0 && |chunk| <= cfg.maximumInspected
       else
         ScannedFirst(cfg, half, lane) && lane.budget.inspected == cfg.maximumInspected
  }

  lemma ForwardGuards(cfg: RelayConfig, side: Side, half: Half, lane: Lane, bytes: Bytes, env: Env)
    requires Enforcing(cfg) && env.hook == Keep
    requires ReadyFor(cfg.inspection.value, side, half, lane, bytes)
    ensures var step := Forwarded(cfg, side, half, lane, bytes, env);
            && Safe(cfg.inspection.value, side, step.half, step.lane)
            && (step.status == Running ==> Guards(cfg.inspection.value, side, step.half, step.lane))
  {
    var icfg := cfg.inspection.value;
    var permit := PermitStep(icfg, side.Direction(), lane, bytes, env.queue);
    var step := Forwarded(cfg, side, half, lane, bytes, env);
    ForwardShape(cfg, side, half, lane, bytes, env);
    if permit.outcome == Permitted {
      if icfg.mode.Streaming? {
        StreamingForward(icfg, side, half, step.half, step.status, lane, bytes, env.queue);
      } else {
        PreflightForward(icfg, side, half, step.half, step.status, lane, bytes, env.queue);
      }
    } else {
      RefusedChunk(icfg, side, half, lane, bytes, env.queue);
    }
  }

  /** A refused chunk leaves the wire as it was, and what is on it was cleared before. */
  lemma RefusedChunk(cfg: InspectConfig, side: Side, half: Half, lane: Lane, bytes: Bytes, queue: Queue)
    requires ReadyFor(cfg, side, half, lane, bytes)
    ensures Safe(cfg, side, half, PermitStep(cfg, side.Direction(), lane, bytes, queue).lane)
  {
  }

  // ---- One branch ----

  lemma HalfGuards(cfg: RelayConfig, half: Half, lane: Lane, event: Event)
    requires Enforcing(cfg) && event.MovesBytes() && EventKeeps(event) && HalfEnabled(cfg, half, event)
    requires Framed(half) && Buffered(cfg, half) && Guards(cfg.inspection.value, event.side, half, lane)
    ensures var step := HalfEvent(cfg, half, lane, event);
            && Safe(cfg.inspection.value, event.side, step.half, step.lane)
            && (step.status == Running ==> Guards(cfg.inspection.value, event.side, step.half, step.lane))
  {
    var released := half.(preflight := Released);
    var held := half.preflight.Held();
    if event.PreflightExpired? {
      ForwardGuards(cfg, event.side, released, lane, held, event.env);
    } else if event.bytes == [] {
      EofShape(cfg, half, lane, event);
      if held != [] {
        ForwardGuards(cfg, event.side, released, lane, held, event.env);
      }
    } else {
      BytesGuard(cfg, half, lane, event);
    }
  }

  lemma BytesGuard(cfg: RelayConfig, half: Half, lane: Lane, event: Event)
    requires Enforcing(cfg) && event.ReadReturned? && event.bytes != []
    requires EventKeeps(event) && HalfEnabled(cfg, half, event)
    requires Framed(half) && Buffered(cfg, half) && Guards(cfg.inspection.value, event.side, half, lane)
    ensures var step := HalfEvent(cfg, half, lane, event);
            && Safe(cfg.inspection.value, event.side, step.half, step.lane)
            && (step.status == Running ==> Guards(cfg.inspection.value, event.side, step.half, step.lane))
  {
    var (buffer, release) :=
      Pushed(half.preflight, event.bytes, cfg.limits.preflightBytes, event.now, cfg.limits.preflightTimeout);
    var next := half.(preflight := buffer, read := half.read + event.bytes);
    if release.Some? {
      assert half.preflight.Pending? ==> |release.value| <= cfg.limits.preflightBytes;
      ForwardGuards(cfg, event.side, next, lane, release.value, event.env);
    }
  }

  // ---- Whole runs ----

  lemma {:induction false} RunGuards(cfg: RelayConfig, start: nat, events: seq<Event>, side: Side)
    requires Enforcing(cfg) && KeepsChunks(events)
    ensures var st := Run(cfg, start, events);
            && Safe(cfg.inspection.value, side, st.Of(side), st.LaneOf(side))
            && (Live(st) ==> Guards(cfg.inspection.value, side, st.Of(side), st.LaneOf(side)))
  {
    if events == [] {
      EmptyIsClean(cfg.inspection.value, side.Direction());
    } else {
      var k := |events| - 1;
      var st := Run(cfg, start, events[..k]);
      RunGuards(cfg, start, events[..k], side);
      RunShape(cfg, start, events[..k], side);
      assert events[k] in events;
      TurnFrame(cfg, st, events[k], side);
      if ActsOn(cfg, st, events[k], side) {
        HalfGuards(cfg, st.Of(side), st.LaneOf(side), events[k]);
      }
    }
  }

  lemma EmptyIsClean(cfg: InspectConfig, direction: Direction)
    ensures Clean(cfg, direction, [])
  {
  }

  /** Streaming, enforced: whatever the chunking, interleaving, partial writes and failures, no
      denied pattern ever occurs in the first `maximumInspected` bytes written in a direction. */
  lemma DeniedNeverForwarded(
    cfg: RelayConfig, start: nat, events: seq<Event>, side: Side, p: InspectionPattern, s: nat)
    requires Enforcing(cfg) && cfg.inspection.value.mode == Streaming && KeepsChunks(events)
    requires Denies(cfg.inspection.value, side.Direction(), p)
    ensures var written := Written(Run(cfg, start, events).Of(side).wire);
            !OccursAt(written[..Min(cfg.inspection.value.maximumInspected, |written|)], p.bytes, s)
  {
    RunGuards(cfg, start, events, side);
  }

  /** Preflight, enforced: whenever anything was written, a buffer within the limit was scanned and
      found clean before it, and the first write is that very buffer, or the part of it that got out
      when the run stopped during this write. */
  lemma PreflightInspectsFirst(cfg: RelayConfig, start: nat, events: seq<Event>, side: Side)
    requires Enforcing(cfg) && cfg.inspection.value.mode == Preflight && KeepsChunks(events)
    ensures var st := Run(cfg, start, events);
            var wire, buffer := st.Of(side).wire, st.LaneOf(side).seen;
            Written(wire) != [] ==>
              && Clean(cfg.inspection.value, side.Direction(), buffer)
              && buffer != [] && |buffer| <= cfg.limits.preflightBytes
              && wire[0].Write? && wire[0].bytes != [] && wire[0].bytes <= buffer
              && (Live(st) ==> wire[0].bytes == buffer)
  {
    RunGuards(cfg, start, events, side);
    RunShape(cfg, start, events, side);
  }

  // ---- Nothing is refused without cause ----

  /** What the source sent under the inspection budget. */
  function BudgetedRead(cfg: InspectConfig, half: Half): Bytes {
    half.read[..Min(cfg.maximumInspected, |half.read|)]
  }

  /** A direction that still scans has then scanned all the budgeted bytes its source sent. */
  lemma ScansBudgetedRead(cfg: InspectConfig, side: Side, half: Half, lane: Lane, bytes: Bytes)
    requires ReadyFor(cfg, side, half, lane, bytes) && half.read == Written(half.wire) + bytes
    requires cfg.mode.Preflight? ==> Written(half.wire) == []
    ensures lane.seen + InspectSlice(cfg, lane, bytes) == BudgetedRead(cfg, half)
  {
  }

  lemma UncleanIfRefused(cfg: InspectConfig, side: Side, half: Half, lane: Lane, bytes: Bytes)
    requires cfg.enforcement == Enforce
    requires ReadyFor(cfg, side, half, lane, bytes) && half.read == Written(half.wire) + bytes
    ensures !ChunkPermitted(cfg, side.Direction(), lane, bytes) ==>
              !Clean(cfg, side.Direction(), BudgetedRead(cfg, half))
  {
    if cfg.mode.Preflight? && Written(half.wire) != [] {
      SpentBudgetPermits(cfg, side.Direction(), lane, bytes);
    } else {
      ScansBudgetedRead(cfg, side, half, lane, bytes);
      PermittedIffClean(cfg, side.Direction(), lane, bytes);
    }
  }

  lemma BlockedChunk(cfg: RelayConfig, side: Side, half: Half, lane: Lane, bytes: Bytes, env: Env)
    requires Enforcing(cfg) && ReadyFor(cfg.inspection.value, side, half, lane, bytes)
    requires half.read == Written(half.wire) + bytes
    ensures var step := Forwarded(cfg, side, half, lane, bytes, env);
            step.status == Terminated(InspectionBlocked) ==>
              !Clean(cfg.inspection.value, side.Direction(), BudgetedRead(cfg.inspection.value, step.half))
  {
    var permit := PermitStep(cfg.inspection.value, side.Direction(), lane, bytes, env.queue);
    UncleanIfRefused(cfg.inspection.value, side, half, lane, bytes);
    VerdictBlocks(half, permit, bytes, cfg.limits.preflightBytes, env);
  }

  lemma VerdictBlocks(half: Half, permit: PermitResult, bytes: Bytes, maximum: nat, env: Env)
    ensures var step := ActOnVerdict(half, permit, bytes, maximum, env);
            step.status == Terminated(InspectionBlocked) ==> permit.outcome == Blocked && step.half == half
  {
  }

  lemma BlockedHalf(cfg: RelayConfig, half: Half, lane: Lane, event: Event)
    requires Enforcing(cfg) && event.MovesBytes() && HalfEnabled(cfg, half, event)
    requires Framed(half) && Buffered(cfg, half) && Conserved(half)
    requires Guards(cfg.inspection.value, event.side, half, lane)
    ensures var step := HalfEvent(cfg, half, lane, event);
            step.status == Terminated(InspectionBlocked) ==>
              !Clean(cfg.inspection.value, event.side.Direction(), BudgetedRead(cfg.inspection.value, step.half))
  {
    var released := half.(preflight := Released);
    var held := half.preflight.Held();
    if event.PreflightExpired? {
      BlockedChunk(cfg, event.side, released, lane, held, event.env);
    } else if event.bytes == [] {
      EofShape(cfg, half, lane, event);
      if held != [] {
        BlockedChunk(cfg, event.side, released, lane, held, event.env);
      }
    } else {
      BlockedBytes(cfg, half, lane, event);
    }
  }

  lemma BlockedBytes(cfg: RelayConfig, half: Half, lane: Lane, event: Event)
    requires Enforcing(cfg) && event.MovesBytes() && HalfEnabled(cfg, half, event)
    requires !event.PreflightExpired? && event.bytes != []
    requires Framed(half) && Buffered(cfg, half) && Conserved(half)
    requires Guards(cfg.inspection.value, event.side, half, lane)
    ensures var step := HalfEvent(cfg, half, lane, event);
            step.status == Terminated(InspectionBlocked) ==>
              !Clean(cfg.inspection.value, event.side.Direction(), BudgetedRead(cfg.inspection.value, step.half))
  {
    var (buffer, release) :=
      Pushed(half.preflight, event.bytes, cfg.limits.preflightBytes, event.now, cfg.limits.preflightTimeout);
    var next := half.(preflight := buffer, read := half.read + event.bytes);
    if release.Some? {
      assert next.read == Written(next.wire) + release.value;
      BlockedChunk(cfg, event.side, next, lane, release.value, event.env);
    }
  }

  /** A run is cut off by inspection only when a source really sent a denied pattern
      within the inspection budget. */
  lemma {:induction false} BlockedOnlyWhenDenied(cfg: RelayConfig, start: nat, events: seq<Event>)
    requires Enforcing(cfg) && KeepsChunks(events)
    requires Run(cfg, start, events).status == Terminated(InspectionBlocked)
    ensures exists side: Side ::
              !Clean(cfg.inspection.value, side.Direction(),
                     BudgetedRead(cfg.inspection.value, Run(cfg, start, events).Of(side)))
  {
    var k := |events| - 1;
    var event := events[k];
    var st := Run(cfg, start, events[..k]);
    if !Enabled(cfg, st, event) {
      BlockedOnlyWhenDenied(cfg, start, events[..k]);
    } else if event.MovesBytes() {
      var side := event.side;
      RunGuards(cfg, start, events[..k], side);
      RunShape(cfg, start, events[..k], side);
      RunConserves(cfg, start, events[..k], side);
      TurnFrame(cfg, st, event, side);
      BlockedHalf(cfg, st.Of(side), st.LaneOf(side), event);
      var step := HalfEvent(cfg, st.Of(side), st.LaneOf(side), event);
      assert Run(cfg, start, events).Of(side) == step.half;
      assert step.status == Terminated(InspectionBlocked);
    }
  }
}
