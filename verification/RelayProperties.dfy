/** What every run of the relay keeps, whatever the sockets, timers, hooks, audit queue
    and shutdown signal do, and however the two directions interleave. */
module RelayProperties {
  import opened Common
  import opened FlowInspection
  import opened Relay

  // ---- Vocabulary ----

  /** The run is still going or ended because both directions finished. */
  predicate Live(st: RelayState) {
    st.status == Running || st.status == Terminated(Completed)
  }

  /** Nothing follows a closed write half. */
  predicate ClosedLast(wire: seq<WireOp>) {
    forall i | 0 <= i < |wire| - 1 :: wire[i].Write?
  }

  /** The direction is open exactly until its write half is shut, and the counter is the bytes written. */
  predicate Framed(half: Half) {
    && ClosedLast(half.wire)
    && (half.open <==> half.wire == [] || half.wire[|half.wire| - 1].Write?)
    && half.count == Saturate(|Written(half.wire)|)
  }

  /** A pending buffer is short of the limit, nothing was written yet, and its deadline runs
      exactly while it holds bytes. */
  predicate Buffered(cfg: RelayConfig, half: Half) {
    half.preflight.Pending? ==>
      && cfg.UsesPreflight() && half.open && half.wire == []
      && |half.preflight.bytes| < cfg.limits.preflightBytes
      && (half.preflight.deadline.Some? <==> half.preflight.bytes != [])
  }

  /** Every byte read was written or is still held. */
  predicate Conserved(half: Half) {
    Written(half.wire) + half.preflight.Held() == half.read
  }

  predicate HalfEnabled(cfg: RelayConfig, half: Half, event: Event)
    requires event.MovesBytes()
  {
    match event
    case PreflightExpired(_, _, _) => half.preflight.Deadline().Some?
    case ReadReturned(_, bytes, _, _, _) =>
      half.open && |bytes| <= half.preflight.ReadSize(cfg.limits.preflightBytes)
  }

  predicate EventKeeps(event: Event) {
    event.MovesBytes() ==> event.env.hook == Keep
  }

  /** Hooks are disabled, or every plan they return is to keep the chunk. */
  predicate KeepsChunks(events: seq<Event>) {
    forall e | e in events :: EventKeeps(e)
  }

  /** The bytes a direction has let through that fall under the inspection budget. */
  function GuardedPrefix(cfg: InspectConfig, half: Half): Bytes {
    var written := Written(half.wire);
    written[..Min(cfg.maximumInspected, |written|)]
  }

  // ---- Forwarding one chunk ----

  /** `next` differs from `half` in the counter and by at most one more write. */
  predicate OneMoreWrite(half: Half, next: Half, status: Status) {
    && status != Terminated(Completed)
    && next == half.(count := next.count, wire := next.wire)
    && half.wire <= next.wire && |next.wire| <= |half.wire| + 1
    && (|next.wire| == |half.wire| + 1 ==> next.wire[|half.wire|].Write?)
    && (status == Running && half.count == Saturate(|Written(half.wire)|) ==>
          next.count == Saturate(|Written(next.wire)|))
  }

  /** Running means all of `bytes` was written; otherwise at most a prefix of it was. */
  predicate WroteChunk(half: Half, next: Half, status: Status, bytes: Bytes) {
    && (status == Running ==> Written(next.wire) == Written(half.wire) + bytes)
    && Written(half.wire) <= Written(next.wire) <= Written(half.wire) + bytes
  }

  lemma WriteShape(half: Half, out: Bytes, write: WriteOutcome)
    ensures var (next, status) := WriteStep(half, out, write);
            OneMoreWrite(half, next, status) && WroteChunk(half, next, status, out)
  {
    WrittenAppend(half.wire, Write(if write.WriteDone? then out else out[..Min(write.partial, |out|)]));
  }

  lemma HookShape(half: Half, bytes: Bytes, maximum: nat, env: Env)
    ensures var (next, status) := HookStep(half, bytes, maximum, env);
            && OneMoreWrite(half, next, status)
            && (env.hook == Keep ==> WroteChunk(half, next, status, bytes))
  {
    if env.hook.Keep? {
      WriteShape(half, bytes, env.write);
    } else if env.hook.Replace? {
      WriteShape(half, env.hook.bytes, env.write);
    }
  }

  lemma VerdictShape(half: Half, permit: PermitResult, bytes: Bytes, maximum: nat, env: Env)
    ensures var step := ActOnVerdict(half, permit, bytes, maximum, env);
            && OneMoreWrite(half, step.half, step.status)
            && (env.hook == Keep ==> WroteChunk(half, step.half, step.status, bytes))
  {
    if permit.outcome == Permitted {
      HookShape(half, bytes, maximum, env);
    }
  }

  /** Forwarding appends at most one write; a kept chunk is written whole or the run stops. */
  lemma ForwardShape(cfg: RelayConfig, side: Side, half: Half, lane: Lane, bytes: Bytes, env: Env)
    ensures var step := Forwarded(cfg, side, half, lane, bytes, env);
            && OneMoreWrite(half, step.half, step.status)
            && (env.hook == Keep ==> WroteChunk(half, step.half, step.status, bytes))
  {
    if cfg.inspection.None? {
      WriteShape(half, bytes, env.write);
    } else {
      var permit := PermitStep(cfg.inspection.value, side.Direction(), lane, bytes, env.queue);
      VerdictShape(half, permit, bytes, cfg.limits.preflightBytes, env);
    }
  }

  lemma FramedByForward(half: Half, next: Half, status: Status)
    requires Framed(half) && half.open && OneMoreWrite(half, next, status)
    ensures ClosedLast(next.wire) && next.open && (status == Running ==> Framed(next))
  {
  }

  lemma ConservedByForward(half: Half, next: Half, status: Status, chunk: Bytes)
    requires OneMoreWrite(half, next, status) && WroteChunk(half, next, status, chunk)
    requires half.preflight.Released? && half.read == Written(half.wire) + chunk
    ensures (status == Running ==> Conserved(next)) && Written(next.wire) <= next.read
  {
  }

  /** Closing adds the final operation and carries no bytes. */
  lemma CloseShape(step: HalfStep, closeOk: bool)
    requires ClosedLast(step.half.wire) && step.half.open && (step.status == Running ==> Framed(step.half))
    ensures var closed := CloseHalf(step, closeOk);
            && ClosedLast(closed.half.wire) && Written(closed.half.wire) == Written(step.half.wire)
            && closed.half.preflight == step.half.preflight && closed.half.read == step.half.read
            && closed.lane == step.lane
            && (closed.status == Running ==> step.status == Running && Framed(closed.half) && !closed.half.open)
  {
  }

  // ---- One turn, seen from one direction ----

  /** An event acts on a direction when its branch fires and moves that direction's bytes. */
  predicate ActsOn(cfg: RelayConfig, st: RelayState, event: Event, side: Side) {
    Enabled(cfg, st, event) && event.MovesBytes() && event.side == side
  }

  lemma AbsorbFrame(cfg: RelayConfig, st: RelayState, event: Event, step: HalfStep, side: Side)
    requires event.MovesBytes() && st.status == Running && step.status != Terminated(Completed)
    ensures var next := Settled(Absorb(cfg, st, event, step));
            && (event.side == side ==> next.Of(side) == step.half && next.LaneOf(side) == step.lane)
            && (event.side != side ==> next.Of(side) == st.Of(side) && next.LaneOf(side) == st.LaneOf(side))
            && (Live(next) <==> step.status == Running)
            && (next.status == Terminated(Completed) ==> !next.Of(side).open)
  {
  }

  lemma NeverCompletes(cfg: RelayConfig, half: Half, lane: Lane, event: Event)
    requires event.MovesBytes()
    ensures HalfEvent(cfg, half, lane, event).status != Terminated(Completed)
  {
    var held := half.preflight.Held();
    ForwardShape(cfg, event.side, half.(preflight := Released), lane, held, event.env);
    if event.ReadReturned? && event.bytes != [] {
      var (buffer, release) :=
        Pushed(half.preflight, event.bytes, cfg.limits.preflightBytes, event.now, cfg.limits.preflightTimeout);
      if release.Some? {
        var next := half.(preflight := buffer, read := half.read + event.bytes);
        ForwardShape(cfg, event.side, next, lane, release.value, event.env);
      }
    }
  }

  /** A turn changes a direction only through its own branch, and keeps the run live only
      when that branch does. */
  lemma TurnFrame(cfg: RelayConfig, st: RelayState, event: Event, side: Side)
    ensures var next := Turn(cfg, st, event);
            && (ActsOn(cfg, st, event, side) ==>
                  var step := HalfEvent(cfg, st.Of(side), st.LaneOf(side), event);
                  && HalfEnabled(cfg, st.Of(side), event) && st.status == Running
                  && next.Of(side) == step.half && next.LaneOf(side) == step.lane
                  && (Live(next) ==> step.status == Running))
            && (!ActsOn(cfg, st, event, side) ==>
                  next.Of(side) == st.Of(side) && next.LaneOf(side) == st.LaneOf(side))
            && (Live(next) ==> Live(st))
            && (next.status == Terminated(Completed) ==> st == next || !next.Of(side).open)
  {
    if Enabled(cfg, st, event) && event.MovesBytes() {
      var step := HalfEvent(cfg, st.Of(event.side), st.LaneOf(event.side), event);
      NeverCompletes(cfg, st.Of(event.side), st.LaneOf(event.side), event);
      AbsorbFrame(cfg, st, event, step, side);
    }
  }

  // ---- Shape: any hooks ----

  lemma HalfShape(cfg: RelayConfig, half: Half, lane: Lane, event: Event)
    requires cfg.Valid() && event.MovesBytes() && HalfEnabled(cfg, half, event)
    requires Framed(half) && Buffered(cfg, half)
    ensures var step := HalfEvent(cfg, half, lane, event);
            && Buffered(cfg, step.half) && ClosedLast(step.half.wire)
            && (step.status == Running ==> Framed(step.half))
  {
    var released := half.(preflight := Released);
    var held := half.preflight.Held();
    if event.PreflightExpired? {
      var step := Forwarded(cfg, event.side, released, lane, held, event.env);
      ForwardShape(cfg, event.side, released, lane, held, event.env);
      FramedByForward(released, step.half, step.status);
    } else if event.bytes == [] {
      EofShape(cfg, half, lane, event);
    } else {
      var (buffer, release) :=
        Pushed(half.preflight, event.bytes, cfg.limits.preflightBytes, event.now, cfg.limits.preflightTimeout);
      if release.Some? {
        var next := half.(preflight := buffer, read := half.read + event.bytes);
        var step := Forwarded(cfg, event.side, next, lane, release.value, event.env);
        ForwardShape(cfg, event.side, next, lane, release.value, event.env);
        FramedByForward(next, step.half, step.status);
      }
    }
  }

  /** The step taken at end of stream, before the write half is closed. */
  function BeforeClose(cfg: RelayConfig, half: Half, lane: Lane, event: Event): HalfStep
    requires event.ReadReturned?
  {
    var released := half.(preflight := Released);
    var held := half.preflight.Held();
    if held == [] then HalfStep(released, lane, [], Running)
    else Forwarded(cfg, event.side, released, lane, held, event.env)
  }

  lemma EofShape(cfg: RelayConfig, half: Half, lane: Lane, event: Event)
    requires event.ReadReturned? && event.bytes == [] && half.open && Framed(half)
    ensures var before := BeforeClose(cfg, half, lane, event);
            var step := HalfEvent(cfg, half, lane, event);
            && step == CloseHalf(before, event.closeOk) && step.lane == before.lane
            && step.half.preflight == Released && ClosedLast(step.half.wire)
            && before.half.wire <= step.half.wire && Written(step.half.wire) == Written(before.half.wire)
            && step.half.read == before.half.read
            && (step.status == Running ==> before.status == Running && Framed(step.half) && !step.half.open)
  {
    var released := half.(preflight := Released);
    var before := BeforeClose(cfg, half, lane, event);
    if half.preflight.Held() != [] {
      ForwardShape(cfg, event.side, released, lane, half.preflight.Held(), event.env);
      FramedByForward(released, before.half, before.status);
    }
    CloseShape(before, event.closeOk);
  }

  /** In every run the preflight buffers keep their bounds and nothing is written after a close;
      while the run is live the counters are the bytes written. */
  lemma {:induction false} RunShape(cfg: RelayConfig, start: nat, events: seq<Event>, side: Side)
    requires cfg.Valid()
    ensures var st := Run(cfg, start, events);
            && Buffered(cfg, st.Of(side)) && ClosedLast(st.Of(side).wire)
            && (Live(st) ==> Framed(st.Of(side)))
  {
    if events != [] {
      var k := |events| - 1;
      var st := Run(cfg, start, events[..k]);
      RunShape(cfg, start, events[..k], side);
      TurnFrame(cfg, st, events[k], side);
      if ActsOn(cfg, st, events[k], side) {
        HalfShape(cfg, st.Of(side), st.LaneOf(side), events[k]);
      }
    }
  }

  /** While the relay waits, its next read always has room, so reading nothing means end of stream. */
  lemma ReadNeverEmpty(cfg: RelayConfig, start: nat, events: seq<Event>, side: Side)
    requires cfg.Valid()
    ensures Run(cfg, start, events).Of(side).preflight.ReadSize(cfg.limits.preflightBytes) > 0
  {
    RunShape(cfg, start, events, side);
  }

  // ---- Conservation: chunks kept ----

  /** Forwarding all that is held of a released direction. */
  lemma ReleaseConserves(cfg: RelayConfig, side: Side, half: Half, lane: Lane, env: Env)
    requires env.hook == Keep && Conserved(half)
    ensures var step := Forwarded(cfg, side, half.(preflight := Released), lane, half.preflight.Held(), env);
            (step.status == Running ==> Conserved(step.half)) && Written(step.half.wire) <= step.half.read
  {
    var released := half.(preflight := Released);
    var held := half.preflight.Held();
    var step := Forwarded(cfg, side, released, lane, held, env);
    ForwardShape(cfg, side, released, lane, held, env);
    ConservedByForward(released, step.half, step.status, held);
  }

  lemma EofConserves(cfg: RelayConfig, half: Half, lane: Lane, event: Event)
    requires event.ReadReturned? && event.bytes == [] && EventKeeps(event) && half.open
    requires Framed(half) && Conserved(half)
    ensures var step := HalfEvent(cfg, half, lane, event);
            (step.status == Running ==> Conserved(step.half)) && Written(step.half.wire) <= step.half.read
  {
    EofShape(cfg, half, lane, event);
    if half.preflight.Held() != [] {
      ReleaseConserves(cfg, event.side, half, lane, event.env);
    }
  }

  /** Forwarding a released chunk that continues what was written. */
  lemma ChunkConserves(cfg: RelayConfig, side: Side, half: Half, lane: Lane, bytes: Bytes, env: Env)
    requires env.hook == Keep && half.preflight.Released? && half.read == Written(half.wire) + bytes
    ensures var step := Forwarded(cfg, side, half, lane, bytes, env);
            (step.status == Running ==> Conserved(step.half)) && Written(step.half.wire) <= step.half.read
  {
    var step := Forwarded(cfg, side, half, lane, bytes, env);
    ForwardShape(cfg, side, half, lane, bytes, env);
    ConservedByForward(half, step.half, step.status, bytes);
  }

  /** A push holds everything, or releases all that was held with what came. */
  lemma PushKeeps(buffer: PreflightBuffer, bytes: Bytes, maximum: nat, now: nat, budget: nat)
    ensures var (next, release) := Pushed(buffer, bytes, maximum, now, budget);
            && (release.None? ==> next.Held() == buffer.Held() + bytes)
            && (release.Some? ==> next.Released? && release.value == buffer.Held() + bytes)
  {
  }

  lemma BytesConserve(cfg: RelayConfig, half: Half, lane: Lane, event: Event)
    requires event.ReadReturned? && event.bytes != [] && EventKeeps(event) && Conserved(half)
    ensures var step := HalfEvent(cfg, half, lane, event);
            (step.status == Running ==> Conserved(step.half)) && Written(step.half.wire) <= step.half.read
  {
    PushKeeps(half.preflight, event.bytes, cfg.limits.preflightBytes, event.now, cfg.limits.preflightTimeout);
    var (buffer, release) :=
      Pushed(half.preflight, event.bytes, cfg.limits.preflightBytes, event.now, cfg.limits.preflightTimeout);
    Regrouped(Written(half.wire), half.preflight.Held(), event.bytes);
    if release.Some? {
      var next := half.(preflight := buffer, read := half.read + event.bytes);
      ChunkConserves(cfg, event.side, next, lane, release.value, event.env);
    }
  }

  lemma HalfConserves(cfg: RelayConfig, half: Half, lane: Lane, event: Event)
    requires event.MovesBytes() && EventKeeps(event) && HalfEnabled(cfg, half, event)
    requires Framed(half) && Conserved(half)
    ensures var step := HalfEvent(cfg, half, lane, event);
            (step.status == Running ==> Conserved(step.half)) && Written(step.half.wire) <= step.half.read
  {
    if event.PreflightExpired? {
      ReleaseConserves(cfg, event.side, half, lane, event.env);
    } else if event.bytes == [] {
      EofConserves(cfg, half, lane, event);
    } else {
      BytesConserve(cfg, half, lane, event);
    }
  }

  /** Per direction, what was written followed by what is held is what was read; a stopped run
      has written a prefix of what it read. */
  lemma {:induction false} RunConserves(cfg: RelayConfig, start: nat, events: seq<Event>, side: Side)
    requires cfg.Valid() && KeepsChunks(events)
    ensures var st := Run(cfg, start, events);
            && (Live(st) ==> Conserved(st.Of(side)))
            && Written(st.Of(side).wire) <= st.Of(side).read
  {
    if events != [] {
      var k := |events| - 1;
      var st := Run(cfg, start, events[..k]);
      RunConserves(cfg, start, events[..k], side);
      RunShape(cfg, start, events[..k], side);
      assert events[k] in events;
      TurnFrame(cfg, st, events[k], side);
      if ActsOn(cfg, st, events[k], side) {
        HalfConserves(cfg, st.Of(side), st.LaneOf(side), events[k]);
      }
    }
  }

  predicate IsEof(event: Event, side: Side) {
    event.ReadReturned? && event.side == side && event.bytes == []
  }

  /** A direction closes only because its source reached end of stream. */
  lemma {:induction false} ClosedByEof(cfg: RelayConfig, start: nat, events: seq<Event>, side: Side)
    ensures !Run(cfg, start, events).Of(side).open ==> exists e | e in events :: IsEof(e, side)
  {
    if events != [] {
      var k := |events| - 1;
      var event := events[k];
      var st := Run(cfg, start, events[..k]);
      ClosedByEof(cfg, start, events[..k], side);
      if !st.Of(side).open {
        var e :| e in events[..k] && IsEof(e, side);
        assert e in events;
      } else if IsEof(event, side) {
        assert event in events;
      } else {
        TurnFrame(cfg, st, event, side);
        if ActsOn(cfg, st, event, side) {
          OnlyEofCloses(cfg, st.Of(side), st.LaneOf(side), event);
        }
      }
    }
  }

  lemma OnlyEofCloses(cfg: RelayConfig, half: Half, lane: Lane, event: Event)
    requires event.MovesBytes() && !IsEof(event, event.side)
    ensures HalfEvent(cfg, half, lane, event).half.open == half.open
  {
    match event {
      case PreflightExpired(side, _, env) =>
        ForwardShape(cfg, side, half.(preflight := Released), lane, half.preflight.Held(), env);
      case ReadReturned(side, bytes, now, env, _) =>
        var (buffer, release) :=
          Pushed(half.preflight, bytes, cfg.limits.preflightBytes, now, cfg.limits.preflightTimeout);
        if release.Some? {
          ForwardShape(cfg, side, half.(preflight := buffer, read := half.read + bytes), lane, release.value, env);
        }
    }
  }

  /** Completion means both sources ended, every byte read was written, each write half was shut
      exactly once as the last thing done to it, and the counters say how much was carried. */
  lemma CompletedRun(cfg: RelayConfig, start: nat, events: seq<Event>, side: Side)
    requires cfg.Valid() && KeepsChunks(events)
    requires Run(cfg, start, events).status == Terminated(Completed)
    ensures var half := Run(cfg, start, events).Of(side);
            && (exists e | e in events :: IsEof(e, side))
            && Written(half.wire) == half.read
            && half.count == Saturate(|half.read|)
            && half.wire != [] && half.wire[|half.wire| - 1] == CloseWrite
            && forall i | 0 <= i < |half.wire| - 1 :: half.wire[i].Write?
  {
    RunShape(cfg, start, events, side);
    RunConserves(cfg, start, events, side);
    CompletedIsClosed(cfg, start, events, side);
    ClosedByEof(cfg, start, events, side);
  }

  lemma {:induction false} CompletedIsClosed(cfg: RelayConfig, start: nat, events: seq<Event>, side: Side)
    ensures Run(cfg, start, events).status == Terminated(Completed) ==> !Run(cfg, start, events).Of(side).open
  {
    if events != [] {
      var k := |events| - 1;
      CompletedIsClosed(cfg, start, events[..k], side);
      TurnFrame(cfg, Run(cfg, start, events[..k]), events[k], side);
    }
  }
}
