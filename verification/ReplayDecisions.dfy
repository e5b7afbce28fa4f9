/** Offline replay of recorded facts makes again the decisions that were recorded live: those of
    destination authorization and those of inspection. */
module ReplayDecisions {
  import opened Common
  import opened AuditQueue
  import opened Domain
  import opened ReplayScan
  import Acl
  import AuditLog
  import Destination
  import FlowInspection
  import Inspection
  import Relay
  import RelayReplay

  type Facts = AuditLog.ReplayFacts

  function DecisionsOn(config: ReplayConfig, facts: seq<Facts>): seq<Decision> {
    if facts == [] then []
    else DecisionsOn(config, facts[..|facts| - 1]) + FactsDecisions(config, facts[|facts| - 1])
  }

  lemma DecisionsOnAppend(config: ReplayConfig, facts: seq<Facts>, last: Facts)
    ensures DecisionsOn(config, facts + [last]) == DecisionsOn(config, facts) + FactsDecisions(config, last)
  {
    assert (facts + [last])[..|facts|] == facts;
  }

  lemma {:induction false} DecisionsOnConcat(config: ReplayConfig, a: seq<Facts>, b: seq<Facts>)
    ensures DecisionsOn(config, a + b) == DecisionsOn(config, a) + DecisionsOn(config, b)
    decreases |b|
  {
    if b == [] {
      assert a + b == a;
    } else {
      var front, last := b[..|b| - 1], b[|b| - 1];
      DecisionsOnConcat(config, a, front);
      DecisionsOnAppend(config, a + front, last);
      DecisionsOnAppend(config, front, last);
      ConcatLast(a, b);
      Regrouped(DecisionsOn(config, a), DecisionsOn(config, front), FactsDecisions(config, last));
    }
  }

  lemma DecisionsOnOne(config: ReplayConfig, facts: Facts)
    ensures DecisionsOn(config, [facts]) == FactsDecisions(config, facts)
  {
    assert [facts][..0] == [];
  }

  // ---- Through the log ----

  /** The facts recorded for one flow, in order, among the envelopes of every flow. */
  function SentFacts(envelopes: seq<AuditLog.Envelope>, session: nat, transaction: Option<nat>): seq<Facts> {
    if envelopes == [] then []
    else
      var k := |envelopes| - 1;
      var before := SentFacts(envelopes[..k], session, transaction);
      if FactsFrom(envelopes[k], session, transaction) then before + [envelopes[k].event.facts] else before
  }

  predicate FactsOfFlow(record: Record, session: nat, transaction: Option<nat>) {
    && record.unsigned.event.FactsObserved?
    && record.unsigned.context.session == session && record.unsigned.context.transaction == transaction
  }

  /** The decisions emitted from one flow's recorded facts, in order. */
  function EmittedFromFacts(output: seq<Emitted>, session: nat, transaction: Option<nat>): seq<Decision> {
    if output == [] then []
    else
      var k := |output| - 1;
      var before := EmittedFromFacts(output[..k], session, transaction);
      if FactsOfFlow(output[k].record, session, transaction) then before + [output[k].decision] else before
  }

  lemma {:induction false} EmittedFromFactsConcat(
    a: seq<Emitted>, b: seq<Emitted>, session: nat, transaction: Option<nat>)
    ensures EmittedFromFacts(a + b, session, transaction)
            == EmittedFromFacts(a, session, transaction) + EmittedFromFacts(b, session, transaction)
  {
    if b == [] {
      assert a + b == a;
    } else {
      EmittedFromFactsConcat(a, b[..|b| - 1], session, transaction);
      ConcatFront(a, b);
    }
  }

  lemma {:induction false} EmissionsFromFacts(
    record: Record, source: Source, decisions: seq<Decision>, session: nat, transaction: Option<nat>)
    ensures EmittedFromFacts(Emissions(record, source, decisions), session, transaction)
            == if FactsOfFlow(record, session, transaction) then decisions else []
  {
    if decisions != [] {
      var front, last := decisions[..|decisions| - 1], decisions[|decisions| - 1];
      EmissionsFromFacts(record, source, front, session, transaction);
      var before := Emissions(record, source, front);
      assert (before + [Emitted(record, source, last)])[..|before|] == before;
      assert decisions == front + [last];
    }
  }

  lemma RecordFromFacts(
    config: ReplayConfig, before: seq<Record>, record: Record, session: nat, transaction: Option<nat>)
    ensures EmittedFromFacts(RecordOutput(config, before, record), session, transaction)
            == if FactsOfFlow(record, session, transaction) then FactsDecisions(config, record.unsigned.event.facts)
               else []
  {
    var event := record.unsigned.event;
    if Captures(record) {
      EmissionsFromFacts(
        record, CapturedPrefix,
        Evaluations(config.program, RecordFindings(config.program, before, record), event.protocol),
        session, transaction);
    } else if event.FactsObserved? {
      EmissionsFromFacts(record, RecordedFacts, FactsDecisions(config, event.facts), session, transaction);
    }
  }

  lemma OutputAppend(config: ReplayConfig, records: seq<Record>, record: Record)
    ensures Output(config, records + [record]) == Output(config, records) + RecordOutput(config, records, record)
  {
    assert (records + [record])[..|records|] == records;
  }

  predicate FactsFrom(e: AuditLog.Envelope, session: nat, transaction: Option<nat>) {
    e.event.FactsObserved? && e.context.session == session && e.context.transaction == transaction
  }

  /** What the log holds of recorded facts. */
  function AsRecorded(redactor: AuditLog.Redactor, facts: Facts): Facts {
    match facts
    case PolicyInput(input) => AuditLog.PolicyInput(AuditLog.RedactedFacts(redactor, input))
    case FindingInput(_, _) => facts
  }

  function AllRecorded(redactor: AuditLog.Redactor, facts: seq<Facts>): seq<Facts> {
    if facts == [] then []
    else AllRecorded(redactor, facts[..|facts| - 1]) + [AsRecorded(redactor, facts[|facts| - 1])]
  }

  lemma RecordedAppend(redactor: AuditLog.Redactor, facts: seq<Facts>, last: Facts)
    ensures AllRecorded(redactor, facts + [last]) == AllRecorded(redactor, facts) + [AsRecorded(redactor, last)]
  {
    assert (facts + [last])[..|facts|] == facts;
  }

  lemma {:induction false} AllRecordedConcat(redactor: AuditLog.Redactor, a: seq<Facts>, b: seq<Facts>)
    ensures AllRecorded(redactor, a + b) == AllRecorded(redactor, a) + AllRecorded(redactor, b)
  {
    if b == [] {
      assert a + b == a;
    } else {
      AllRecordedConcat(redactor, a, b[..|b| - 1]);
      ConcatFront(a, b);
    }
  }

  lemma OrdinaryFacts(
    config: ReplayConfig, drain: AuditLog.Drain, before: seq<Record>, e: AuditLog.Envelope,
    session: nat, transaction: Option<nat>)
    ensures EmittedFromFacts(Output(config, AuditLog.AppendOrdinary(drain, before, e)), session, transaction)
            == EmittedFromFacts(Output(config, before), session, transaction)
               + if FactsFrom(e, session, transaction)
                 then FactsDecisions(config, AsRecorded(drain.redactor, e.event.facts)) else []
  {
    var event := AuditLog.Redact(drain.redactor, e.event);
    assert event.FactsObserved? <==> e.event.FactsObserved?;
    assert e.event.FactsObserved? ==> event.facts == AsRecorded(drain.redactor, e.event.facts);
    EnvelopeFacts(config, before, AuditLog.NextRecord(drain.digest, before, e.context, event), session, transaction);
  }

  lemma CheckpointFacts(
    config: ReplayConfig, drain: AuditLog.Drain, before: seq<Record>, context: AuditLog.Context,
    session: nat, transaction: Option<nat>)
    requires drain.schedule.Some? && before != []
    ensures EmittedFromFacts(Output(config, AuditLog.AppendCheckpoint(drain, before, context)), session, transaction)
            == EmittedFromFacts(Output(config, before), session, transaction)
  {
    var event := AuditLog.CheckpointEvent(drain, before);
    EnvelopeFacts(config, before, AuditLog.NextRecord(drain.digest, before, context, event), session, transaction);
  }

  /** One envelope's record adds the decisions on its facts; a checkpoint adds none. */
  lemma DrainStepFacts(
    config: ReplayConfig, drain: AuditLog.Drain, before: seq<Record>, e: AuditLog.Envelope, ordinal: nat,
    session: nat, transaction: Option<nat>)
    ensures EmittedFromFacts(Output(config, AuditLog.DrainStep(drain, before, e, ordinal)), session, transaction)
            == EmittedFromFacts(Output(config, before), session, transaction)
               + if FactsFrom(e, session, transaction)
                 then FactsDecisions(config, AsRecorded(drain.redactor, e.event.facts)) else []
  {
    OrdinaryFacts(config, drain, before, e, session, transaction);
    if AuditLog.CheckpointDue(drain, ordinal) {
      CheckpointFacts(
        config, drain, AuditLog.AppendOrdinary(drain, before, e), e.context, session, transaction);
    }
  }

  /** Replaying a drained segment emits, for each flow, the decisions on the facts it recorded, as
      redaction left them, whatever other flows recorded in between. */
  lemma {:induction false} DrainedFacts(
    config: ReplayConfig, drain: AuditLog.Drain, envelopes: seq<AuditLog.Envelope>, session: nat,
    transaction: Option<nat>)
    ensures EmittedFromFacts(Output(config, AuditLog.Drained(drain, envelopes)), session, transaction)
            == DecisionsOn(config, AllRecorded(drain.redactor, SentFacts(envelopes, session, transaction)))
  {
    if envelopes != [] {
      var front, e := envelopes[..|envelopes| - 1], envelopes[|envelopes| - 1];
      var sent := SentFacts(front, session, transaction);
      DrainedFacts(config, drain, front, session, transaction);
      DrainStepFacts(config, drain, AuditLog.Drained(drain, front), e, |envelopes|, session, transaction);
      if FactsFrom(e, session, transaction) {
        var facts := e.event.facts;
        DecisionsOnAppend(config, AllRecorded(drain.redactor, sent), AsRecorded(drain.redactor, facts));
        RecordedAppend(drain.redactor, sent, facts);
      }
    }
  }

  lemma EnvelopeFacts(
    config: ReplayConfig, before: seq<Record>, record: Record, session: nat, transaction: Option<nat>)
    ensures EmittedFromFacts(Output(config, before + [record]), session, transaction)
            == EmittedFromFacts(Output(config, before), session, transaction)
               + if FactsOfFlow(record, session, transaction)
                 then FactsDecisions(config, record.unsigned.event.facts) else []
  {
    OutputAppend(config, before, record);
    EmittedFromFactsConcat(Output(config, before), RecordOutput(config, before, record), session, transaction);
    RecordFromFacts(config, before, record, session, transaction);
  }

  lemma RecordedInParts(config: ReplayConfig, redactor: AuditLog.Redactor, a: seq<Facts>, b: seq<Facts>)
    ensures DecisionsOn(config, AllRecorded(redactor, a + b))
            == DecisionsOn(config, AllRecorded(redactor, a)) + DecisionsOn(config, AllRecorded(redactor, b))
  {
    AllRecordedConcat(redactor, a, b);
    DecisionsOnConcat(config, AllRecorded(redactor, a), AllRecorded(redactor, b));
  }

  /** What a flow recorded in two parts is decided part by part. */
  lemma EmittedInParts(
    config: ReplayConfig, drain: AuditLog.Drain, envelopes: seq<AuditLog.Envelope>, session: nat,
    transaction: Option<nat>, a: seq<Facts>, b: seq<Facts>)
    requires SentFacts(envelopes, session, transaction) == a + b
    ensures EmittedFromFacts(Output(config, AuditLog.Drained(drain, envelopes)), session, transaction)
            == DecisionsOn(config, AllRecorded(drain.redactor, a)) + DecisionsOn(config, AllRecorded(drain.redactor, b))
  {
    DrainedFacts(config, drain, envelopes, session, transaction);
    RecordedInParts(config, drain.redactor, a, b);
  }

  // ---- Destination authorization ----

  /** The facts among authorization's records. */
  function FactsIn(events: seq<Destination.AuditEvent>): seq<Facts> {
    if events == [] then []
    else
      var before, last := FactsIn(events[..|events| - 1]), events[|events| - 1];
      match last
      case RequestedObserved(wanted) => before + [AuditLog.PolicyInput(Acl.Requested(wanted))]
      case ResolvedObserved(target) => before + [AuditLog.PolicyInput(Acl.Resolved(target))]
      case _ => before
  }

  /** The decisions among authorization's records. */
  function DecisionsIn(events: seq<Destination.AuditEvent>): seq<Decision> {
    if events == [] then []
    else
      var before, last := DecisionsIn(events[..|events| - 1]), events[|events| - 1];
      if last.AclEvaluated? then before + [last.decision] else before
  }

  lemma {:induction false} AuthorizationConcat(a: seq<Destination.AuditEvent>, b: seq<Destination.AuditEvent>)
    ensures FactsIn(a + b) == FactsIn(a) + FactsIn(b) && DecisionsIn(a + b) == DecisionsIn(a) + DecisionsIn(b)
  {
    if b == [] {
      assert a + b == a;
    } else {
      AuthorizationConcat(a, b[..|b| - 1]);
      ConcatFront(a, b);
    }
  }

  /** Replaying the facts among `events` makes the decisions among them. */
  predicate Rederives(config: ReplayConfig, events: seq<Destination.AuditEvent>) {
    DecisionsOn(config, FactsIn(events)) == DecisionsIn(events)
  }

  lemma RederivesConcat(config: ReplayConfig, a: seq<Destination.AuditEvent>, b: seq<Destination.AuditEvent>)
    requires Rederives(config, a) && Rederives(config, b)
    ensures Rederives(config, a + b)
  {
    AuthorizationConcat(a, b);
    DecisionsOnConcat(config, FactsIn(a), FactsIn(b));
  }

  lemma OneEvent(event: Destination.AuditEvent)
    ensures DecisionsIn([event]) == if event.AclEvaluated? then [event.decision] else []
    ensures FactsIn([event])
            == match event
               case RequestedObserved(wanted) => [AuditLog.PolicyInput(Acl.Requested(wanted))]
               case ResolvedObserved(target) => [AuditLog.PolicyInput(Acl.Resolved(target))]
               case _ => []
  {
    assert [event][..0] == [];
  }

  lemma SilentRederives(config: ReplayConfig, event: Destination.AuditEvent)
    requires event.ActionExecuted? || event.TargetResolved?
    ensures Rederives(config, [event])
  {
    OneEvent(event);
  }

  predicate Matches(config: ReplayConfig, snapshot: Destination.Snapshot) {
    config.policy == snapshot.policy && config.guard == snapshot.guard
  }

  lemma RoundRederives(
    config: ReplayConfig, snapshot: Destination.Snapshot, wanted: Acl.RequestedFacts, permitted: bool)
    requires Matches(config, snapshot)
    ensures Rederives(config, Destination.RoundEvents(wanted, Destination.AskDecision(snapshot, wanted), permitted))
  {
    var decision := Destination.AskDecision(snapshot, wanted);
    var observed, evaluated := Destination.RequestedObserved(wanted), Destination.AclEvaluated(decision);
    OneEvent(observed);
    OneEvent(evaluated);
    AuthorizationConcat([observed], [evaluated]);
    DecisionsOnOne(config, AuditLog.PolicyInput(Acl.Requested(wanted)));
    assert [observed] + [evaluated] == [observed, evaluated];
    if !permitted {
      SilentRederives(config, Destination.ActionExecuted(decision));
      RederivesConcat(config, [observed, evaluated], [Destination.ActionExecuted(decision)]);
    } else {
      assert [observed, evaluated] + [] == [observed, evaluated];
    }
  }

  lemma {:induction false} RequestedRederives(
    config: ReplayConfig, snapshot: Destination.Snapshot, wanted: Acl.RequestedFacts, detoured: bool)
    requires Matches(config, snapshot)
    ensures Rederives(config, Destination.RequestedPlan(snapshot, wanted, detoured).events)
    decreases !detoured
  {
    var decision := Destination.AskDecision(snapshot, wanted);
    var permitted := Permits(snapshot.enforcement, decision);
    RoundRederives(config, snapshot, wanted, permitted);
    if Destination.RoundResult(wanted, decision, permitted, detoured).None? {
      var again := Destination.Detoured(wanted, decision.action.destination);
      RequestedRederives(config, snapshot, again, true);
      RederivesConcat(
        config, Destination.RoundEvents(wanted, decision, permitted),
        Destination.RequestedPlan(snapshot, again, true).events);
    }
  }

  lemma {:induction false} EvaluationsIn(decisions: seq<Decision>)
    ensures DecisionsIn(Destination.Evaluations(decisions)) == decisions
    ensures FactsIn(Destination.Evaluations(decisions)) == []
  {
    if decisions != [] {
      var k := |decisions| - 1;
      EvaluationsIn(decisions[..k]);
      assert Destination.Evaluations(decisions)[..k] == Destination.Evaluations(decisions[..k]);
      assert decisions == decisions[..k] + [decisions[k]];
    }
  }

  lemma AddressRederives(
    config: ReplayConfig, snapshot: Destination.Snapshot, selected: Acl.RequestedFacts,
    address: Destination.SocketAddr, late: bool)
    requires Matches(config, snapshot)
    ensures Rederives(config, Destination.AddressEvents(snapshot, selected, address, late))
  {
    var facts := Acl.ResolvedFacts(selected, address.ip);
    var decisions := Destination.AddressDecisions(snapshot, selected, address);
    var observed := [Destination.ResolvedObserved(facts)];
    var evaluated := Destination.Evaluations(decisions);
    OneEvent(observed[0]);
    EvaluationsIn(decisions);
    AuthorizationConcat(observed, evaluated);
    DecisionsOnOne(config, AuditLog.PolicyInput(Acl.Resolved(facts)));
    assert Rederives(config, observed + evaluated);
    if late {
      var executed := Destination.ActionExecuted(decisions[|decisions| - 1]);
      SilentRederives(config, executed);
      RederivesConcat(config, observed + evaluated, [executed]);
    } else {
      assert observed + evaluated + [] == observed + evaluated;
    }
  }

  lemma {:induction false} ResolvedRederives(
    config: ReplayConfig, snapshot: Destination.Snapshot, selected: Acl.RequestedFacts,
    addresses: seq<Destination.SocketAddr>, denial: Option<Decision>)
    requires Matches(config, snapshot)
    ensures Rederives(config, Destination.ResolvedPlan(snapshot, selected, addresses, denial).events)
  {
    if addresses == [] {
      if denial.Some? {
        SilentRederives(config, Destination.ActionExecuted(denial.value));
      }
    } else {
      var late := Destination.LateDetour(snapshot, selected, addresses[0]);
      AddressRederives(config, snapshot, selected, addresses[0], late);
      if !late {
        var decisions := Destination.AddressDecisions(snapshot, selected, addresses[0]);
        var remembered := Destination.Remember(snapshot, denial, decisions);
        ResolvedRederives(config, snapshot, selected, addresses[1..], remembered);
        RederivesConcat(
          config, Destination.AddressEvents(snapshot, selected, addresses[0], late),
          Destination.ResolvedPlan(snapshot, selected, addresses[1..], remembered).events);
      }
    }
  }

  /** With the configuration that was live, replaying the facts one authorization recorded makes exactly
      the decisions it recorded, in order: guard and policy, detours and denials included. */
  lemma AuthorizationRederives(
    config: ReplayConfig, snapshot: Destination.Snapshot, wanted: Acl.RequestedFacts,
    lookup: Acl.RequestedFacts -> Option<seq<Destination.SocketAddr>>)
    requires Matches(config, snapshot)
    ensures Rederives(config, Destination.WholePlan(snapshot, wanted, lookup).events)
  {
    var asked := Destination.RequestedPlan(snapshot, wanted, false);
    RequestedRederives(config, snapshot, wanted, false);
    if asked.result.Success? && lookup(asked.result.value).Some? && lookup(asked.result.value).value != [] {
      var found := lookup(asked.result.value).value;
      var resolved := Destination.TargetResolved(asked.result.value.host, Destination.Ips(found));
      var checked := Destination.ResolvedPlan(snapshot, asked.result.value, found, None);
      SilentRederives(config, resolved);
      ResolvedRederives(config, snapshot, asked.result.value, found, None);
      RederivesConcat(config, [resolved], checked.events);
      RederivesConcat(config, asked.events, [resolved] + checked.events);
    }
  }

  /** Redaction leaves facts about destinations alone. */
  lemma {:induction false} AuthorizationRecorded(redactor: AuditLog.Redactor, events: seq<Destination.AuditEvent>)
    ensures AllRecorded(redactor, FactsIn(events)) == FactsIn(events)
  {
    if events != [] {
      var front := events[..|events| - 1];
      AuthorizationRecorded(redactor, front);
      match events[|events| - 1] {
        case RequestedObserved(wanted) =>
          RecordedAppend(redactor, FactsIn(front), AuditLog.PolicyInput(Acl.Requested(wanted)));
        case ResolvedObserved(target) =>
          RecordedAppend(redactor, FactsIn(front), AuditLog.PolicyInput(Acl.Resolved(target)));
        case _ =>
      }
    }
  }

  /** Through the log: among everything else a flow and all other flows record, replay emits for an
      authorization exactly what it decided, in its place. */
  lemma ReplayedAuthorization(
    config: ReplayConfig, snapshot: Destination.Snapshot, wanted: Acl.RequestedFacts,
    lookup: Acl.RequestedFacts -> Option<seq<Destination.SocketAddr>>,
    drain: AuditLog.Drain, envelopes: seq<AuditLog.Envelope>, session: nat, transaction: Option<nat>,
    earlier: seq<Facts>, later: seq<Facts>)
    requires Matches(config, snapshot)
    requires SentFacts(envelopes, session, transaction)
             == earlier + FactsIn(Destination.WholePlan(snapshot, wanted, lookup).events) + later
    ensures EmittedFromFacts(Output(config, AuditLog.Drained(drain, envelopes)), session, transaction)
            == DecisionsOn(config, AllRecorded(drain.redactor, earlier))
               + DecisionsIn(Destination.WholePlan(snapshot, wanted, lookup).events)
               + DecisionsOn(config, AllRecorded(drain.redactor, later))
  {
    var events := Destination.WholePlan(snapshot, wanted, lookup).events;
    EmittedInParts(config, drain, envelopes, session, transaction, earlier + FactsIn(events), later);
    RecordedInParts(config, drain.redactor, earlier, FactsIn(events));
    AuthorizationRecorded(drain.redactor, events);
    AuthorizationRederives(config, snapshot, wanted, lookup);
  }

  // ---- Inspection ----

  /** The facts among a flow's inspection records. */
  function FindingFactsIn(records: seq<FlowInspection.FlowRecord>): seq<Facts> {
    if records == [] then []
    else
      var before, last := FindingFactsIn(records[..|records| - 1]), records[|records| - 1];
      if last.FindingFacts? then before + [AuditLog.FindingInput(last.finding, last.protocol)] else before
  }

  /** The decisions among a flow's inspection records. */
  function InspectionDecisionsIn(records: seq<FlowInspection.FlowRecord>): seq<Decision> {
    if records == [] then []
    else
      var before, last := InspectionDecisionsIn(records[..|records| - 1]), records[|records| - 1];
      if last.InspectionEvaluated? then before + [last.decision] else before
  }

  predicate FlowRederives(config: ReplayConfig, records: seq<FlowInspection.FlowRecord>) {
    DecisionsOn(config, FindingFactsIn(records)) == InspectionDecisionsIn(records)
  }

  lemma {:induction false} InspectionConcat(a: seq<FlowInspection.FlowRecord>, b: seq<FlowInspection.FlowRecord>)
    ensures FindingFactsIn(a + b) == FindingFactsIn(a) + FindingFactsIn(b)
    ensures InspectionDecisionsIn(a + b) == InspectionDecisionsIn(a) + InspectionDecisionsIn(b)
  {
    if b == [] {
      assert a + b == a;
    } else {
      InspectionConcat(a, b[..|b| - 1]);
      ConcatFront(a, b);
    }
  }

  lemma FlowRederivesConcat(
    config: ReplayConfig, a: seq<FlowInspection.FlowRecord>, b: seq<FlowInspection.FlowRecord>)
    requires FlowRederives(config, a) && FlowRederives(config, b)
    ensures FlowRederives(config, a + b)
  {
    InspectionConcat(a, b);
    DecisionsOnConcat(config, FindingFactsIn(a), FindingFactsIn(b));
  }

  lemma OneRecord(record: FlowInspection.FlowRecord)
    ensures FindingFactsIn([record])
            == if record.FindingFacts? then [AuditLog.FindingInput(record.finding, record.protocol)] else []
    ensures InspectionDecisionsIn([record]) == if record.InspectionEvaluated? then [record.decision] else []
  {
    assert [record][..0] == [];
  }

  lemma SilentRecord(config: ReplayConfig, record: FlowInspection.FlowRecord)
    requires !record.FindingFacts? && !record.InspectionEvaluated?
    ensures FlowRederives(config, [record])
  {
    OneRecord(record);
  }

  /** Facts directly followed by the decision on them. */
  lemma PairRederives(
    config: ReplayConfig, facts: FlowInspection.FlowRecord, evaluated: FlowInspection.FlowRecord)
    requires facts.FindingFacts? && evaluated.InspectionEvaluated?
    requires FactsDecisions(config, AuditLog.FindingInput(facts.finding, facts.protocol)) == [evaluated.decision]
    ensures FlowRederives(config, [facts] + [evaluated])
  {
    OneRecord(facts);
    OneRecord(evaluated);
    InspectionConcat([facts], [evaluated]);
    DecisionsOnOne(config, AuditLog.FindingInput(facts.finding, facts.protocol));
  }

  lemma FindingRederives(config: ReplayConfig, cfg: FlowInspection.InspectConfig, finding: Inspection.Finding)
    requires config.program == cfg.program
    ensures FlowRederives(config, FlowInspection.RecordsOf(cfg, finding))
  {
    var decision := Inspection.Evaluate(cfg.program, finding, cfg.protocol);
    var detected := FlowInspection.FindingDetected(finding);
    var facts := FlowInspection.FindingFacts(finding, cfg.protocol);
    var evaluated := FlowInspection.InspectionEvaluated(decision);
    SilentRecord(config, detected);
    PairRederives(config, facts, evaluated);
    FlowRederivesConcat(config, [detected], [facts] + [evaluated]);
    assert [detected, facts, evaluated] == [detected] + ([facts] + [evaluated]);
    if FlowInspection.Blocks(cfg, finding) {
      SilentRecord(config, FlowInspection.ActionExecuted(decision));
      FlowRederivesConcat(config, [detected, facts, evaluated], [FlowInspection.ActionExecuted(decision)]);
    } else {
      assert [detected, facts, evaluated] + [] == [detected, facts, evaluated];
    }
  }

  lemma {:induction false} FindingsRederive(
    config: ReplayConfig, cfg: FlowInspection.InspectConfig, findings: seq<Inspection.Finding>)
    requires config.program == cfg.program
    ensures FlowRederives(config, FlowInspection.FindingRecords(cfg, findings))
  {
    if findings != [] {
      FindingRederives(config, cfg, findings[0]);
      if !FlowInspection.Blocks(cfg, findings[0]) {
        FindingsRederive(config, cfg, findings[1..]);
        FlowRederivesConcat(
          config, FlowInspection.RecordsOf(cfg, findings[0]), FlowInspection.FindingRecords(cfg, findings[1..]));
      }
    }
  }

  lemma PermitRederives(
    config: ReplayConfig, cfg: FlowInspection.InspectConfig, direction: Direction, lane: FlowInspection.Lane,
    bytes: Bytes, queue: Queue)
    requires config.program == cfg.program && Lossless(queue)
    requires FlowInspection.PermitStep(cfg, direction, lane, bytes, queue).outcome != FlowInspection.AuditRejected
    ensures FlowRederives(config, FlowInspection.PermitStep(cfg, direction, lane, bytes, queue).records)
  {
    var captured := FlowInspection.CaptureRecords(cfg, direction, lane, bytes);
    var findings := FlowInspection.LaneFindings(cfg, direction, lane, bytes);
    LosslessDelivers(queue, captured + FlowInspection.FindingRecords(cfg, findings));
    if captured != [] {
      SilentRecord(config, captured[0]);
    }
    FindingsRederive(config, cfg, findings);
    FlowRederivesConcat(config, captured, FlowInspection.FindingRecords(cfg, findings));
  }

  /** In every run whose records were all published, replaying the finding facts makes exactly the
      inspection decisions that were published, in order, also when the last of them blocked the run. */
  lemma {:induction false} RunRederives(
    config: ReplayConfig, cfg: Relay.RelayConfig, start: nat, events: seq<Relay.Event>)
    requires cfg.inspection.Some? && config.program == cfg.inspection.value.program
    requires forall e | e in events :: RelayReplay.DropsNothing(e)
    ensures var st := Relay.Run(cfg, start, events);
            st.status != Relay.Failed(Relay.AuditFailed) ==> FlowRederives(config, st.published)
  {
    if events != [] {
      var front, event := events[..|events| - 1], events[|events| - 1];
      var st := Relay.Run(cfg, start, front);
      forall e | e in front ensures RelayReplay.DropsNothing(e) {
        assert e in events;
      }
      RunRederives(config, cfg, start, front);
      assert event in events;
      RelayReplay.TurnPublishes(cfg, st, event);
      if Relay.Enabled(cfg, st, event) && event.MovesBytes() {
        var half, lane := st.Of(event.side), st.LaneOf(event.side);
        RelayReplay.BranchPermit(cfg, half, lane, event);
        var chunk := RelayReplay.ChunkOf(cfg, half, event);
        var step := Relay.HalfEvent(cfg, half, lane, event);
        if chunk.Some? && step.status != Relay.Failed(Relay.AuditFailed) {
          PermitRederives(
            config, cfg.inspection.value, event.side.Direction(), lane, chunk.value, event.env.queue);
          FlowRederivesConcat(config, st.published, step.records);
        } else if chunk.None? {
          assert st.published + [] == st.published;
        }
      }
    }
  }

  /** Redaction leaves findings alone. */
  lemma {:induction false} FindingsRecorded(redactor: AuditLog.Redactor, records: seq<FlowInspection.FlowRecord>)
    ensures AllRecorded(redactor, FindingFactsIn(records)) == FindingFactsIn(records)
  {
    if records != [] {
      var front, last := records[..|records| - 1], records[|records| - 1];
      FindingsRecorded(redactor, front);
      if last.FindingFacts? {
        var facts := AuditLog.FindingInput(last.finding, last.protocol);
        RecordedAppend(redactor, FindingFactsIn(front), facts);
      }
    }
  }

  /** A whole session through the log: an authorization followed by an inspected relay run. Replay emits
      exactly the decisions the session made, in order, also when the last of them blocked the run. */
  lemma ReplayedSession(
    config: ReplayConfig, snapshot: Destination.Snapshot, wanted: Acl.RequestedFacts,
    lookup: Acl.RequestedFacts -> Option<seq<Destination.SocketAddr>>,
    cfg: Relay.RelayConfig, start: nat, events: seq<Relay.Event>,
    drain: AuditLog.Drain, envelopes: seq<AuditLog.Envelope>, session: nat, transaction: Option<nat>)
    requires Matches(config, snapshot)
    requires cfg.inspection.Some? && config.program == cfg.inspection.value.program
    requires forall e | e in events :: RelayReplay.DropsNothing(e)
    requires Relay.Run(cfg, start, events).status != Relay.Failed(Relay.AuditFailed)
    requires SentFacts(envelopes, session, transaction)
             == FactsIn(Destination.WholePlan(snapshot, wanted, lookup).events)
                + FindingFactsIn(Relay.Run(cfg, start, events).published)
    ensures EmittedFromFacts(Output(config, AuditLog.Drained(drain, envelopes)), session, transaction)
            == DecisionsIn(Destination.WholePlan(snapshot, wanted, lookup).events)
               + InspectionDecisionsIn(Relay.Run(cfg, start, events).published)
  {
    var published := Relay.Run(cfg, start, events).published;
    var planned := Destination.WholePlan(snapshot, wanted, lookup).events;
    EmittedInParts(
      config, drain, envelopes, session, transaction, FactsIn(planned), FindingFactsIn(published));
    AuthorizationRecorded(drain.redactor, planned);
    AuthorizationRederives(config, snapshot, wanted, lookup);
    FindingsRecorded(drain.redactor, published);
    RunRederives(config, cfg, start, events);
  }
}
