/** The two-direction TCP relay: preflight buffering, inspection, controlled writes,
    half-close, idle and shutdown control, driven by whatever the environment does next. */
module Relay {
  import opened Common
  import opened AuditQueue
  import opened Domain
  import opened FlowInspection

  const RELAY_READ_BUFFER_BYTES: nat := 16 * 1024

  datatype RelayLimits = RelayLimits(idleTimeout: nat, preflightBytes: nat, preflightTimeout: nat)

  datatype RelayConfig = RelayConfig(limits: RelayLimits, inspection: Option<InspectConfig>) {
    /** Byte limits are non-zero and every caller gives the inspector the preflight limit. */
    predicate Valid() {
      && limits.preflightBytes > 0
      && (inspection.Some? ==> inspection.value.Valid() && inspection.value.maximumInspected == limits.preflightBytes)
    }

    predicate UsesPreflight() {
      inspection.Some? && inspection.value.mode == Preflight
    }
  }

  // ---- Preflight buffer ----

  datatype PreflightBuffer = Pending(bytes: Bytes, deadline: Option<nat>) | Released {
    function Held(): Bytes {
      if Pending? then bytes else []
    }

    function Deadline(): Option<nat> {
      if Pending? then deadline else None
    }

    function ReadSize(maximum: nat): nat {
      if Pending? then Min(SaturatingSub(maximum, |bytes|), RELAY_READ_BUFFER_BYTES) else RELAY_READ_BUFFER_BYTES
    }
  }

  /** Adds input to the buffer, handing out what is to be forwarded now. */
  method Push(buffer: PreflightBuffer, input: Bytes, maximum: nat, now: nat, budget: nat)
    returns (after: PreflightBuffer, release: Option<Bytes>)
    ensures (after, release) == Pushed(buffer, input, maximum, now, budget)
  {
    if buffer.Released? {
      return buffer, Some(input);
    }
    var deadline := if buffer.deadline.None? then Some(now + budget) else buffer.deadline;
    var bytes := buffer.bytes + input;
    if |bytes| < maximum {
      return Pending(bytes, deadline), None;
    }
    return Released, Some(bytes);
  }

  function Pushed(buffer: PreflightBuffer, input: Bytes, maximum: nat, now: nat, budget: nat)
    : (PreflightBuffer, Option<Bytes>)
  {
    if buffer.Released? then (buffer, Some(input))
    else
      var deadline := if buffer.deadline.None? then Some(now + budget) else buffer.deadline;
      if |buffer.bytes + input| < maximum then (Pending(buffer.bytes + input, deadline), None)
      else (Released, Some(buffer.bytes + input))
  }

  // ---- One direction ----

  /** The side whose bytes are read; they are written to the other side. */
  datatype Side = Client | Upstream {
    function Direction(): Direction {
      if Client? then ClientToUpstream else UpstreamToClient
    }
  }

  datatype WireOp = Write(bytes: Bytes) | CloseWrite

  /** All bytes put on the wire, in order. */
  function Written(wire: seq<WireOp>): Bytes {
    if wire == [] then []
    else
      var last := wire[|wire| - 1];
      Written(wire[..|wire| - 1]) + if last.Write? then last.bytes else []
  }

  lemma WrittenAppend(wire: seq<WireOp>, op: WireOp)
    ensures Written(wire + [op]) == Written(wire) + if op.Write? then op.bytes else []
  {
  }

  /** `read` and `wire` record everything that crossed this direction. */
  datatype Half = Half(open: bool, preflight: PreflightBuffer, count: nat, read: Bytes, wire: seq<WireOp>)

  datatype Termination = Completed | IdleTimeout | ShutdownRequested | InspectionBlocked

  datatype RelayError = RelayRead | RelayWrite | AuditFailed | HookFailure | HookMutation

  datatype Status = Running | Terminated(termination: Termination) | Failed(error: RelayError)

  datatype HookPlan = Keep | Replace(bytes: Bytes) | Drop | HookFails

  /** How a controlled write ended, and how much of it reached the wire if it did not finish. */
  datatype WriteOutcome =
    | WriteDone
    | WriteIdle(partial: nat)
    | WriteCancelled(partial: nat)
    | WriteFails(partial: nat)

  /** The environment's choices should a chunk be forwarded. */
  datatype Env = Env(queue: Queue, hook: HookPlan, write: WriteOutcome)

  /** The effect of one branch on its direction: relay fields, inspector lane, records, status. */
  datatype HalfStep = HalfStep(half: Half, lane: Lane, records: seq<FlowRecord>, status: Status)

  function WriteStep(half: Half, out: Bytes, write: WriteOutcome): (Half, Status) {
    if write.WriteDone? then
      (half.(count := SaturatingAdd(half.count, Saturate(|out|)), wire := half.wire + [Write(out)]), Running)
    else
      (half.(wire := half.wire + [Write(out[..Min(write.partial, |out|)])]),
       match write
       case WriteIdle(_) => Terminated(IdleTimeout)
       case WriteCancelled(_) => Terminated(ShutdownRequested)
       case _ => Failed(RelayWrite))
  }

  function HookStep(half: Half, bytes: Bytes, maximum: nat, env: Env): (Half, Status) {
    match env.hook
    case Keep => WriteStep(half, bytes, env.write)
    case Replace(replacement) =>
      if |replacement| > maximum then (half, Failed(HookMutation)) else WriteStep(half, replacement, env.write)
    case Drop => (half, Running)
    case HookFails => (half, Failed(HookFailure))
  }

  /** Acts on the inspector's verdict: stop, or transform and write. */
  function ActOnVerdict(half: Half, permit: PermitResult, bytes: Bytes, maximum: nat, env: Env): HalfStep {
    match permit.outcome
    case AuditRejected => HalfStep(half, permit.lane, permit.records, Failed(AuditFailed))
    case Blocked => HalfStep(half, permit.lane, permit.records, Terminated(InspectionBlocked))
    case Permitted =>
      var (next, status) := HookStep(half, bytes, maximum, env);
      HalfStep(next, permit.lane, permit.records, status)
  }

  /** Inspects, transforms and writes one chunk. */
  function Forwarded(cfg: RelayConfig, side: Side, half: Half, lane: Lane, bytes: Bytes, env: Env): HalfStep {
    if cfg.inspection.None? then
      var (next, status) := WriteStep(half, bytes, env.write);
      HalfStep(next, lane, [], status)
    else
      var permit := PermitStep(cfg.inspection.value, side.Direction(), lane, bytes, env.queue);
      ActOnVerdict(half, permit, bytes, cfg.limits.preflightBytes, env)
  }

  /** The preflight deadline passed: forward what is held. */
  function OnDeadline(cfg: RelayConfig, side: Side, half: Half, lane: Lane, env: Env): HalfStep {
    Forwarded(cfg, side, half.(preflight := Released), lane, half.preflight.Held(), env)
  }

  function CloseHalf(step: HalfStep, closeOk: bool): HalfStep {
    if step.status != Running then step
    else
      step.(half := step.half.(open := false, wire := step.half.wire + [CloseWrite]),
            status := if closeOk then Running else Failed(RelayWrite))
  }

  /** End of stream: release what is held, then close the other side's write half. */
  function OnEof(cfg: RelayConfig, side: Side, half: Half, lane: Lane, env: Env, closeOk: bool): HalfStep {
    var held := half.preflight.Held();
    var released := half.(preflight := Released);
    CloseHalf(
      if held == [] then HalfStep(released, lane, [], Running) else Forwarded(cfg, side, released, lane, held, env),
      closeOk)
  }

  function OnBytes(cfg: RelayConfig, side: Side, half: Half, lane: Lane, bytes: Bytes, now: nat, env: Env): HalfStep {
    var (buffer, release) :=
      Pushed(half.preflight, bytes, cfg.limits.preflightBytes, now, cfg.limits.preflightTimeout);
    var next := half.(preflight := buffer, read := half.read + bytes);
    if release.None? then HalfStep(next, lane, [], Running)
    else Forwarded(cfg, side, next, lane, release.value, env)
  }

  // ---- The select loop ----

  datatype Event =
    | ShutdownSignalled
    | IdleExpired(now: nat)
    | PreflightExpired(side: Side, now: nat, env: Env)
    | ReadReturned(side: Side, bytes: Bytes, now: nat, env: Env, closeOk: bool)
    | ReadFailed(side: Side)
  {
    /** The branches that move bytes of one direction. */
    predicate MovesBytes() {
      PreflightExpired? || ReadReturned?
    }
  }

  datatype RelayState = RelayState(
    client: Half, upstream: Half, clientLane: Lane, upstreamLane: Lane,
    deadline: nat, published: seq<FlowRecord>, status: Status)
  {
    function Of(side: Side): Half {
      if side.Client? then client else upstream
    }

    function LaneOf(side: Side): Lane {
      if side.Client? then clientLane else upstreamLane
    }

    function With(side: Side, half: Half, lane: Lane): RelayState {
      if side.Client? then this.(client := half, clientLane := lane)
      else this.(upstream := half, upstreamLane := lane)
    }
  }

  function NewHalf(cfg: RelayConfig): Half {
    Half(true, if cfg.UsesPreflight() then Pending([], None) else Released, 0, [], [])
  }

  function Start(cfg: RelayConfig, now: nat): RelayState {
    RelayState(NewHalf(cfg), NewHalf(cfg), NEW_LANE, NEW_LANE, now + cfg.limits.idleTimeout, [], Running)
  }

  /** Which branches of the select may fire. */
  predicate Enabled(cfg: RelayConfig, st: RelayState, event: Event) {
    st.status == Running &&
    match event
    case ShutdownSignalled => true
    case IdleExpired(now) => now >= st.deadline
    case PreflightExpired(side, now, _) =>
      var deadline := st.Of(side).preflight.Deadline();
      deadline.Some? && now >= deadline.value
    case ReadReturned(side, bytes, _, _, _) =>
      st.Of(side).open && |bytes| <= st.Of(side).preflight.ReadSize(cfg.limits.preflightBytes)
    case ReadFailed(side) => st.Of(side).open
  }

  function HalfEvent(cfg: RelayConfig, half: Half, lane: Lane, event: Event): HalfStep
    requires event.MovesBytes()
  {
    match event
    case PreflightExpired(side, _, env) => OnDeadline(cfg, side, half, lane, env)
    case ReadReturned(side, bytes, now, env, closeOk) =>
      if bytes == [] then OnEof(cfg, side, half, lane, env, closeOk)
      else OnBytes(cfg, side, half, lane, bytes, now, env)
  }

  function Absorb(cfg: RelayConfig, st: RelayState, event: Event, step: HalfStep): RelayState
    requires event.MovesBytes()
  {
    st.With(event.side, step.half, step.lane).(
    deadline :=
      if event.ReadReturned? && event.bytes != [] then event.now + cfg.limits.idleTimeout else st.deadline,
    published := st.published + step.records,
    status := step.status)
  }

  function Step(cfg: RelayConfig, st: RelayState, event: Event): RelayState {
    match event
    case ShutdownSignalled => st.(status := Terminated(ShutdownRequested))
    case IdleExpired(_) => st.(status := Terminated(IdleTimeout))
    case ReadFailed(_) => st.(status := Failed(RelayRead))
    case _ => Absorb(cfg, st, event, HalfEvent(cfg, st.Of(event.side), st.LaneOf(event.side), event))
  }

  /** The test at the head of the loop. */
  function Settled(st: RelayState): RelayState {
    if st.status == Running && !st.client.open && !st.upstream.open
    then st.(status := Terminated(Completed)) else st
  }

  /** One turn of the loop; an event whose branch is disabled does not fire. */
  function Turn(cfg: RelayConfig, st: RelayState, event: Event): RelayState {
    if Enabled(cfg, st, event) then Settled(Step(cfg, st, event)) else st
  }

  /** A run under any sequence of events. */
  function Run(cfg: RelayConfig, start: nat, events: seq<Event>): RelayState {
    if events == [] then Start(cfg, start)
    else Turn(cfg, Run(cfg, start, events[..|events| - 1]), events[|events| - 1])
  }

  lemma RunExtends(cfg: RelayConfig, start: nat, events: seq<Event>, i: nat)
    requires i < |events|
    ensures Run(cfg, start, events[..i + 1]) == Turn(cfg, Run(cfg, start, events[..i]), events[i])
  {
    assert events[..i + 1][..i] == events[..i];
  }

  // ---- The loop itself ----

  ghost function InspectorFrame(inspector: FlowInspector?): set<object> {
    if inspector == null then {} else {inspector, inspector.scanner}
  }

  ghost function InspectorLane(inspector: FlowInspector?): Lane
    reads InspectorFrame(inspector)
  {
    if inspector == null then NEW_LANE else inspector.LaneView()
  }

  /** The inspector serves this configuration and direction. */
  ghost predicate Serves(cfg: RelayConfig, side: Side, inspector: FlowInspector?)
    reads InspectorFrame(inspector)
  {
    && (inspector == null <==> cfg.inspection.None?)
    && (inspector != null ==>
          inspector.Valid() && inspector.cfg == cfg.inspection.value && inspector.direction == side.Direction())
  }

  /** Inspects, transforms and writes one chunk with the inspector's own state. */
  method ForwardChunk(cfg: RelayConfig, side: Side, inspector: FlowInspector?, half: Half, bytes: Bytes, env: Env)
    returns (next: Half, records: seq<FlowRecord>, status: Status)
    requires Serves(cfg, side, inspector)
    modifies InspectorFrame(inspector)
    ensures Serves(cfg, side, inspector)
    ensures HalfStep(next, InspectorLane(inspector), records, status)
            == Forwarded(cfg, side, half, old(InspectorLane(inspector)), bytes, env)
  {
    if inspector == null {
      next, status := WriteWithControls(half, bytes, env.write);
      return next, [], status;
    }
    var outcome, ui;
    outcome, records, ui := inspector.PermitChunk(bytes, env.queue);
    match outcome {
      case AuditRejected =>
        next, status := half, Failed(AuditFailed);
      case Blocked =>
        next, status := half, Terminated(InspectionBlocked);
      case Permitted =>
        next, status := TransformAndWrite(half, bytes, cfg.limits.preflightBytes, env);
    }
  }

  method TransformAndWrite(half: Half, bytes: Bytes, maximum: nat, env: Env) returns (next: Half, status: Status)
    ensures (next, status) == HookStep(half, bytes, maximum, env)
  {
    match env.hook {
      case Keep =>
        next, status := WriteWithControls(half, bytes, env.write);
      case Replace(replacement) =>
        if |replacement| > maximum {
          return half, Failed(HookMutation);
        }
        next, status := WriteWithControls(half, replacement, env.write);
      case Drop =>
        next, status := half, Running;
      case HookFails =>
        next, status := half, Failed(HookFailure);
    }
  }

  method WriteWithControls(half: Half, out: Bytes, write: WriteOutcome) returns (next: Half, status: Status)
    ensures (next, status) == WriteStep(half, out, write)
  {
    match write {
      case WriteDone =>
        next := half.(count := SaturatingAdd(half.count, Saturate(|out|)), wire := half.wire + [Write(out)]);
        status := Running;
      case WriteIdle(n) =>
        next, status := half.(wire := half.wire + [Write(out[..Min(n, |out|)])]), Terminated(IdleTimeout);
      case WriteCancelled(n) =>
        next, status := half.(wire := half.wire + [Write(out[..Min(n, |out|)])]), Terminated(ShutdownRequested);
      case WriteFails(n) =>
        next, status := half.(wire := half.wire + [Write(out[..Min(n, |out|)])]), Failed(RelayWrite);
    }
  }

  /** One branch that moves bytes, run against the direction's inspector. */
  method HandleBytes(cfg: RelayConfig, inspector: FlowInspector?, half: Half, event: Event)
    returns (next: Half, records: seq<FlowRecord>, status: Status)
    requires event.MovesBytes() && Serves(cfg, event.side, inspector)
    modifies InspectorFrame(inspector)
    ensures Serves(cfg, event.side, inspector)
    ensures HalfStep(next, InspectorLane(inspector), records, status)
            == HalfEvent(cfg, half, old(InspectorLane(inspector)), event)
  {
    next, records, status := half, [], Running;
    if event.PreflightExpired? {
      var held := next.preflight.Held();
      next := next.(preflight := Released);
      next, records, status := ForwardChunk(cfg, event.side, inspector, next, held, event.env);
    } else if event.bytes == [] {
      var held := next.preflight.Held();
      next := next.(preflight := Released);
      if held != [] {
        next, records, status := ForwardChunk(cfg, event.side, inspector, next, held, event.env);
        if status != Running {
          return;
        }
      }
      next := next.(open := false, wire := next.wire + [CloseWrite]);
      status := if event.closeOk then Running else Failed(RelayWrite);
    } else {
      var buffer, release :=
        Push(next.preflight, event.bytes, cfg.limits.preflightBytes, event.now, cfg.limits.preflightTimeout);
      next := next.(preflight := buffer, read := next.read + event.bytes);
      if release.Some? {
        next, records, status := ForwardChunk(cfg, event.side, inspector, next, release.value, event.env);
      }
    }
  }

  /** The loop's own variables; the inspectors hold the rest of the state. */
  datatype LoopVars = LoopVars(
    client: Half, upstream: Half, deadline: nat, published: seq<FlowRecord>, status: Status)
  {
    function View(clientLane: Lane, upstreamLane: Lane): RelayState {
      RelayState(client, upstream, clientLane, upstreamLane, deadline, published, status)
    }
  }

  /** Runs the branch of an event that fired. */
  method HandleEvent(
    cfg: RelayConfig, clientInspector: FlowInspector?, upstreamInspector: FlowInspector?, vars: LoopVars, event: Event)
    returns (next: LoopVars)
    requires Serves(cfg, Client, clientInspector) && Serves(cfg, Upstream, upstreamInspector)
    requires InspectorFrame(clientInspector) !! InspectorFrame(upstreamInspector)
    modifies InspectorFrame(clientInspector), InspectorFrame(upstreamInspector)
    ensures Serves(cfg, Client, clientInspector) && Serves(cfg, Upstream, upstreamInspector)
    ensures next.View(InspectorLane(clientInspector), InspectorLane(upstreamInspector))
            == Step(cfg, vars.View(old(InspectorLane(clientInspector)), old(InspectorLane(upstreamInspector))), event)
  {
    if event.ShutdownSignalled? {
      next := vars.(status := Terminated(ShutdownRequested));
    } else if event.IdleExpired? {
      next := vars.(status := Terminated(IdleTimeout));
    } else if event.ReadFailed? {
      next := vars.(status := Failed(RelayRead));
    } else {
      var deadline := if event.ReadReturned? && event.bytes != [] then event.now + cfg.limits.idleTimeout
        else vars.deadline;
      var half, records, status;
      if event.side.Client? {
        half, records, status := HandleBytes(cfg, clientInspector, vars.client, event);
        next := LoopVars(half, vars.upstream, deadline, vars.published + records, status);
      } else {
        half, records, status := HandleBytes(cfg, upstreamInspector, vars.upstream, event);
        next := LoopVars(vars.client, half, deadline, vars.published + records, status);
      }
    }
  }

  /** One turn of the select loop, including the test at the head of the next turn. */
  method SelectTurn(
    cfg: RelayConfig, clientInspector: FlowInspector?, upstreamInspector: FlowInspector?, vars: LoopVars, event: Event)
    returns (next: LoopVars)
    requires Serves(cfg, Client, clientInspector) && Serves(cfg, Upstream, upstreamInspector)
    requires InspectorFrame(clientInspector) !! InspectorFrame(upstreamInspector)
    modifies InspectorFrame(clientInspector), InspectorFrame(upstreamInspector)
    ensures Serves(cfg, Client, clientInspector) && Serves(cfg, Upstream, upstreamInspector)
    ensures next.View(InspectorLane(clientInspector), InspectorLane(upstreamInspector))
            == Turn(cfg, vars.View(old(InspectorLane(clientInspector)), old(InspectorLane(upstreamInspector))), event)
  {
    next := vars;
    EnabledIgnoresLanes(cfg, vars, InspectorLane(clientInspector), InspectorLane(upstreamInspector), event);
    if Enabled(cfg, vars.View(NEW_LANE, NEW_LANE), event) {
      next := HandleEvent(cfg, clientInspector, upstreamInspector, vars, event);
      if next.status == Running && !next.client.open && !next.upstream.open {
        next := next.(status := Terminated(Completed));
      }
    }
  }

  lemma EnabledIgnoresLanes(cfg: RelayConfig, vars: LoopVars, clientLane: Lane, upstreamLane: Lane, event: Event)
    ensures Enabled(cfg, vars.View(NEW_LANE, NEW_LANE), event)
            == Enabled(cfg, vars.View(clientLane, upstreamLane), event)
  {
  }

  /** The relay loop. `events` is whatever the sockets, timers and shutdown signal do; the loop
      is exactly the run the properties below are about. */
  method RelayFlow(
    cfg: RelayConfig, start: nat, clientInspector: FlowInspector?, upstreamInspector: FlowInspector?,
    events: seq<Event>)
    returns (vars: LoopVars)
    requires Serves(cfg, Client, clientInspector) && InspectorLane(clientInspector) == NEW_LANE
    requires Serves(cfg, Upstream, upstreamInspector) && InspectorLane(upstreamInspector) == NEW_LANE
    requires InspectorFrame(clientInspector) !! InspectorFrame(upstreamInspector)
    modifies InspectorFrame(clientInspector), InspectorFrame(upstreamInspector)
    ensures vars.View(InspectorLane(clientInspector), InspectorLane(upstreamInspector)) == Run(cfg, start, events)
  {
    vars := LoopVars(NewHalf(cfg), NewHalf(cfg), start + cfg.limits.idleTimeout, [], Running);
    for i := 0 to |events|
      invariant Serves(cfg, Client, clientInspector) && Serves(cfg, Upstream, upstreamInspector)
      invariant vars.View(InspectorLane(clientInspector), InspectorLane(upstreamInspector))
                == Run(cfg, start, events[..i])
    {
      RunExtends(cfg, start, events, i);
      vars := SelectTurn(cfg, clientInspector, upstreamInspector, vars, events[i]);
    }
    assert events[..|events|] == events;
  }
}
