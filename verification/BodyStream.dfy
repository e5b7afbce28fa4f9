/** The lossy body-prefix stream between the data plane and a live observer: what the
    producer publishes for each chunk, and what a consumer rebuilds from the events it gets. */
module BodyStream {
  import opened Common
  import opened AuditQueue
  import opened Domain
  import opened FlowInspection

  /** The consumer's bounded view of one direction's body. */
  datatype BodyView = BodyView(body: Bytes, observed: nat, truncated: bool, incomplete: bool) {
    /** Extends the body when the event continues it, and records a gap otherwise. */
    function Append(e: BodyPrefix): BodyView {
      var continues := e.offset == Saturate(|body|);
      BodyView(
        if continues then body + e.bytes else body,
        if observed < e.observed then e.observed else observed,
        truncated || e.truncated,
        incomplete || !continues)
    }
  }

  const EMPTY_VIEW := BodyView([], 0, false, false)

  function Deliver(view: BodyView, events: seq<BodyPrefix>): BodyView {
    if events == [] then view else Deliver(view, events[..|events| - 1]).Append(events[|events| - 1])
  }

  // ---- Producer ----

  /** The event published for `chunk` after `stream`, given a retention limit. */
  function EventFor(limit: nat, direction: Direction, stream: Bytes, chunk: Bytes): seq<BodyPrefix> {
    var retained := Min(SaturatingSub(limit, |stream|), |chunk|);
    if chunk == [] || |stream| > limit then []
    else [BodyPrefix(direction, chunk[..retained], |stream|, |stream| + |chunk|, retained < |chunk|)]
  }

  function EventsFor(limit: nat, direction: Direction, chunks: seq<Bytes>): seq<BodyPrefix> {
    if chunks == [] then []
    else
      var k := |chunks| - 1;
      EventsFor(limit, direction, chunks[..k]) + EventFor(limit, direction, Flatten(chunks[..k]), chunks[k])
  }

  /** A lane whose observer counters describe exactly the stream seen so far. */
  predicate Tracks(limit: nat, lane: Lane, stream: Bytes) {
    && lane.budget.uiObserved == Saturate(|stream|)
    && lane.budget.uiRetained == Min(limit, |stream|)
    && (lane.budget.uiReported <==> |stream| > limit)
  }

  /** Whatever the audit queue and the verdict, each chunk publishes exactly the owed event. */
  lemma ProducerPublishesOwed(
    cfg: InspectConfig, direction: Direction, lane: Lane, stream: Bytes, chunk: Bytes, queue: Queue)
    requires cfg.uiLimit.Some? && Tracks(cfg.uiLimit.value, lane, stream) && |stream| + |chunk| <= U64_MAX
    ensures var step := PermitStep(cfg, direction, lane, chunk, queue);
            && step.ui == EventFor(cfg.uiLimit.value, direction, stream, chunk)
            && Tracks(cfg.uiLimit.value, step.lane, stream + chunk)
  {
    var step := PermitStep(cfg, direction, lane, chunk, queue);
    var after := LaneAfterUi(cfg, direction, lane, chunk);
    assert step.lane.budget.uiObserved == after.budget.uiObserved;
    assert step.lane.budget.uiRetained == after.budget.uiRetained;
    assert step.lane.budget.uiReported == after.budget.uiReported;
  }

  /** One call to the inspector: a chunk, and how the audit queue treats its records. */
  datatype Call = Call(chunk: Bytes, queue: Queue)

  function Chunks(calls: seq<Call>): seq<Bytes> {
    if calls == [] then [] else Chunks(calls[..|calls| - 1]) + [calls[|calls| - 1].chunk]
  }

  function RunLane(cfg: InspectConfig, direction: Direction, calls: seq<Call>): Lane {
    if calls == [] then NEW_LANE
    else
      var k := |calls| - 1;
      PermitStep(cfg, direction, RunLane(cfg, direction, calls[..k]), calls[k].chunk, calls[k].queue).lane
  }

  /** Everything published to the observer over a run of calls. */
  function RunUi(cfg: InspectConfig, direction: Direction, calls: seq<Call>): seq<BodyPrefix> {
    if calls == [] then []
    else
      var k := |calls| - 1;
      RunUi(cfg, direction, calls[..k])
      + PermitStep(cfg, direction, RunLane(cfg, direction, calls[..k]), calls[k].chunk, calls[k].queue).ui
  }

  /** Over any run, however the audit queue behaves, the observer is sent exactly the owed events. */
  lemma {:induction false} RunPublishesOwed(cfg: InspectConfig, direction: Direction, calls: seq<Call>)
    requires cfg.uiLimit.Some? && |Flatten(Chunks(calls))| <= U64_MAX
    ensures RunUi(cfg, direction, calls) == EventsFor(cfg.uiLimit.value, direction, Chunks(calls))
    ensures Tracks(cfg.uiLimit.value, RunLane(cfg, direction, calls), Flatten(Chunks(calls)))
  {
    if calls != [] {
      var k := |calls| - 1;
      var before := Chunks(calls[..k]);
      FlattenAppend(before, calls[k].chunk);
      assert (before + [calls[k].chunk])[..|before|] == before;
      RunPublishesOwed(cfg, direction, calls[..k]);
      var lane := RunLane(cfg, direction, calls[..k]);
      ProducerPublishesOwed(cfg, direction, lane, Flatten(before), calls[k].chunk, calls[k].queue);
    }
  }

  // ---- Consumer ----

  /** An event that truthfully describes a piece of `stream`. */
  predicate Truthful(e: BodyPrefix, stream: Bytes) {
    e.offset + |e.bytes| <= |stream| && stream[e.offset..e.offset + |e.bytes|] == e.bytes
  }

  lemma TruthfulExtends(e: BodyPrefix, stream: Bytes, more: Bytes)
    requires Truthful(e, stream)
    ensures Truthful(e, stream + more)
  {
  }

  lemma {:induction false} EventsAreTruthful(limit: nat, direction: Direction, chunks: seq<Bytes>, e: BodyPrefix)
    requires e in EventsFor(limit, direction, chunks)
    ensures Truthful(e, Flatten(chunks))
  {
    var k := |chunks| - 1;
    var stream := Flatten(chunks[..k]);
    if e in EventsFor(limit, direction, chunks[..k]) {
      EventsAreTruthful(limit, direction, chunks[..k], e);
      TruthfulExtends(e, stream, chunks[k]);
    } else {
      assert e in EventFor(limit, direction, stream, chunks[k]);
    }
  }

  lemma {:induction false} TruthfulDelivery(stream: Bytes, events: seq<BodyPrefix>)
    requires |stream| <= U64_MAX && forall e | e in events :: Truthful(e, stream)
    ensures Deliver(EMPTY_VIEW, events).body <= stream
  {
    if events != [] {
      var k := |events| - 1;
      TruthfulDelivery(stream, events[..k]);
      var view := Deliver(EMPTY_VIEW, events[..k]);
      var e := events[k];
      assert Truthful(e, stream);
      if e.offset == Saturate(|view.body|) {
        assert stream[..e.offset + |e.bytes|] == stream[..e.offset] + stream[e.offset..e.offset + |e.bytes|];
      }
    }
  }

  /** Any events of the stream, dropped, repeated or reordered at will, rebuild a prefix of it. */
  lemma LossyPrefix(limit: nat, direction: Direction, chunks: seq<Bytes>, delivered: seq<BodyPrefix>)
    requires |Flatten(chunks)| <= U64_MAX
    requires forall e | e in delivered :: e in EventsFor(limit, direction, chunks)
    ensures Deliver(EMPTY_VIEW, delivered).body <= Flatten(chunks)
  {
    forall e | e in delivered ensures Truthful(e, Flatten(chunks)) {
      EventsAreTruthful(limit, direction, chunks, e);
    }
    TruthfulDelivery(Flatten(chunks), delivered);
  }

  lemma DeliverSplit(view: BodyView, first: seq<BodyPrefix>, last: seq<BodyPrefix>)
    requires |last| <= 1
    ensures Deliver(view, first + last)
            == if last == [] then Deliver(view, first) else Deliver(view, first).Append(last[0])
  {
    if last == [] {
      assert first + last == first;
    } else {
      assert (first + last)[..|first|] == first;
    }
  }

  /** The view is exactly the retained prefix, whole, and truncated only when it must be. */
  predicate Faithful(limit: nat, view: BodyView, stream: Bytes) {
    && view.body == stream[..Min(limit, |stream|)]
    && !view.incomplete
    && (view.truncated <==> |stream| > limit)
    && (!view.truncated ==> view.observed == |stream|)
  }

  lemma FaithfulExtends(limit: nat, direction: Direction, view: BodyView, stream: Bytes, chunk: Bytes)
    requires |stream| + |chunk| <= U64_MAX && Faithful(limit, view, stream)
    ensures var events := EventFor(limit, direction, stream, chunk);
            Faithful(limit, if events == [] then view else view.Append(events[0]), stream + chunk)
  {
  }

  /** Without loss the observer holds the first bytes of the stream up to the limit. */
  lemma {:induction false} LosslessReconstruction(limit: nat, direction: Direction, chunks: seq<Bytes>)
    requires |Flatten(chunks)| <= U64_MAX
    ensures Faithful(limit, Deliver(EMPTY_VIEW, EventsFor(limit, direction, chunks)), Flatten(chunks))
  {
    if chunks != [] {
      var k := |chunks| - 1;
      var stream := Flatten(chunks[..k]);
      var before := EventsFor(limit, direction, chunks[..k]);
      LosslessReconstruction(limit, direction, chunks[..k]);
      DeliverSplit(EMPTY_VIEW, before, EventFor(limit, direction, stream, chunks[k]));
      FaithfulExtends(limit, direction, Deliver(EMPTY_VIEW, before), stream, chunks[k]);
    }
  }

  // ---- Ordered loss: a gap is flagged exactly when something was delivered after it ----

  /** Some non-empty event was dropped. */
  predicate Lost(events: seq<BodyPrefix>, kept: seq<bool>) {
    exists i | 0 <= i < |events| :: !Accepts(kept, i) && events[i].bytes != []
  }

  /** Something arrived after a non-empty event was dropped. */
  predicate Overtaken(events: seq<BodyPrefix>, kept: seq<bool>) {
    exists i, j | 0 <= i < j < |events| :: !Accepts(kept, i) && events[i].bytes != [] && Accepts(kept, j)
  }

  /** The retained bytes of all events, in order. */
  function Joined(events: seq<BodyPrefix>): Bytes {
    if events == [] then [] else Joined(events[..|events| - 1]) + events[|events| - 1].bytes
  }

  /** Each event starts where the retained bytes before it end. */
  predicate Contiguous(events: seq<BodyPrefix>) {
    events == [] ||
    var k := |events| - 1;
    Contiguous(events[..k]) && events[k].offset == |Joined(events[..k])|
  }

  lemma {:induction false} EventsAreContiguous(limit: nat, direction: Direction, chunks: seq<Bytes>)
    ensures Contiguous(EventsFor(limit, direction, chunks))
    ensures |Joined(EventsFor(limit, direction, chunks))| == Min(limit, |Flatten(chunks)|)
  {
    if chunks != [] {
      var k := |chunks| - 1;
      var before := EventsFor(limit, direction, chunks[..k]);
      var events := EventsFor(limit, direction, chunks);
      EventsAreContiguous(limit, direction, chunks[..k]);
      assert events[..|before|] == before;
      if |events| == |before| {
        assert events == before;
      }
    }
  }

  /** With in-order loss the body falls short exactly when a non-empty event was dropped, and
      the gap is flagged exactly when a later event arrived. */
  lemma {:induction false} GapsAreFlagged(events: seq<BodyPrefix>, kept: seq<bool>)
    requires Contiguous(events) && |Joined(events)| <= U64_MAX
    ensures var view := Deliver(EMPTY_VIEW, Surviving(kept, events));
            && (view.incomplete <==> Overtaken(events, kept))
            && (!Lost(events, kept) ==> view.body == Joined(events))
            && (Lost(events, kept) ==> |view.body| < |Joined(events)|)
  {
    if events != [] {
      var k := |events| - 1;
      GapsAreFlagged(events[..k], kept);
      DeliverSplit(EMPTY_VIEW, Surviving(kept, events[..k]), if Accepts(kept, k) then [events[k]] else []);
      LossGrows(events, kept);
    }
  }

  lemma LossGrows(events: seq<BodyPrefix>, kept: seq<bool>)
    requires events != []
    ensures var k := |events| - 1;
            && (Lost(events, kept) <==> Lost(events[..k], kept) || (!Accepts(kept, k) && events[k].bytes != []))
            && (Overtaken(events, kept) <==>
                Overtaken(events[..k], kept) || (Lost(events[..k], kept) && Accepts(kept, k)))
  {
    var k := |events| - 1;
    var before := events[..k];
    if Lost(before, kept) {
      var i :| 0 <= i < k && !Accepts(kept, i) && before[i].bytes != [];
      assert !Accepts(kept, i) && events[i].bytes != [];
    }
    if Overtaken(before, kept) {
      var i, j :| 0 <= i < j < k && !Accepts(kept, i) && before[i].bytes != [] && Accepts(kept, j);
      assert !Accepts(kept, i) && events[i].bytes != [] && Accepts(kept, j);
    }
    if i :| 0 <= i < |events| && !Accepts(kept, i) && events[i].bytes != [] {
      if i < k {
        assert before[i].bytes != [];
      }
    }
    if i, j :| 0 <= i < j < |events| && !Accepts(kept, i) && events[i].bytes != [] && Accepts(kept, j) {
      assert before[i].bytes != [];
    }
  }
}
