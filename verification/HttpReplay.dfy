/** Offline replay of an HTTP exchange: what is emitted from the facts its policy evaluations recorded,
    against what they decided. */
module HttpReplay {
  import opened Common
  import opened Domain
  import opened HttpPolicy
  import opened ReplayDecisions
  import opened ReplayScan
  import Acl
  import AuditLog
  import Destination

  /** The facts among the records of HTTP evaluations. */
  function HttpFactsIn(events: seq<HttpEvent>): seq<Facts> {
    if events == [] then []
    else if events[0].FactsObserved? then [AuditLog.PolicyInput(events[0].facts)] + HttpFactsIn(events[1..])
    else HttpFactsIn(events[1..])
  }

  /** The decisions among the records of HTTP evaluations. */
  function HttpDecisionsIn(events: seq<HttpEvent>): seq<Decision> {
    if events == [] then []
    else if events[0].AclEvaluated? then [events[0].decision] + HttpDecisionsIn(events[1..])
    else HttpDecisionsIn(events[1..])
  }

  predicate AllHttp(facts: seq<Acl.PolicyFacts>) {
    forall i | 0 <= i < |facts| :: facts[i].HttpRequest? || facts[i].HttpResponse?
  }

  function AllRedacted(redactor: AuditLog.Redactor, facts: seq<Acl.PolicyFacts>): seq<Acl.PolicyFacts> {
    if facts == [] then [] else [AuditLog.RedactedFacts(redactor, facts[0])] + AllRedacted(redactor, facts[1..])
  }

  /** What replay decides on the facts that an evaluation recorded. */
  function Redecided(
    config: ReplayConfig, redactor: AuditLog.Redactor, snapshot: Destination.Snapshot, facts: seq<Acl.PolicyFacts>)
    : seq<Decision>
  {
    DecisionsOn(config, AllRecorded(redactor, HttpFactsIn(Owed(snapshot, facts, None))))
  }

  lemma PairIn(facts: Acl.PolicyFacts, decision: Decision, rest: seq<HttpEvent>)
    ensures var events := [FactsObserved(facts), AclEvaluated(decision)] + rest;
            && HttpFactsIn(events) == [AuditLog.PolicyInput(facts)] + HttpFactsIn(rest)
            && HttpDecisionsIn(events) == [decision] + HttpDecisionsIn(rest)
  {
    var events := [FactsObserved(facts), AclEvaluated(decision)] + rest;
    assert events[1..] == [AclEvaluated(decision)] + rest;
    assert events[1..][1..] == rest;
  }

  lemma OneRecorded(config: ReplayConfig, redactor: AuditLog.Redactor, facts: Acl.PolicyFacts)
    requires facts.HttpRequest? || facts.HttpResponse?
    ensures DecisionsOn(config, AllRecorded(redactor, [AuditLog.PolicyInput(facts)]))
            == [Acl.Decide(config.policy, AuditLog.RedactedFacts(redactor, facts))]
  {
    var input := AuditLog.PolicyInput(facts);
    assert [input][..0] == [];
    assert AllRecorded(redactor, [input]) == [AsRecorded(redactor, input)];
    DecisionsOnOne(config, AsRecorded(redactor, input));
  }

  function Inputs(facts: seq<Acl.PolicyFacts>): seq<Facts> {
    if facts == [] then [] else [AuditLog.PolicyInput(facts[0])] + Inputs(facts[1..])
  }

  lemma ActionIn(denial: Option<Decision>)
    ensures var events := if denial.Some? then [ActionExecuted(denial.value)] else [];
            HttpFactsIn(events) == [] && HttpDecisionsIn(events) == []
  {
    if denial.Some? {
      assert [ActionExecuted(denial.value)][1..] == [];
    }
  }

  /** An evaluation records its facts and the decisions on them. */
  lemma {:induction false} OwedHolds(
    snapshot: Destination.Snapshot, facts: seq<Acl.PolicyFacts>, denial: Option<Decision>)
    ensures HttpFactsIn(Owed(snapshot, facts, denial)) == Inputs(facts)
    ensures HttpDecisionsIn(Owed(snapshot, facts, denial)) == Decisions(snapshot.policy, facts)
  {
    if facts == [] {
      ActionIn(denial);
    } else {
      var decision := Acl.Decide(snapshot.policy, facts[0]);
      var remembered := Destination.Remember(snapshot, denial, [decision]);
      OwedHolds(snapshot, facts[1..], remembered);
      PairIn(facts[0], decision, Owed(snapshot, facts[1..], remembered));
    }
  }

  lemma {:induction false} InputsRedecided(
    config: ReplayConfig, redactor: AuditLog.Redactor, facts: seq<Acl.PolicyFacts>)
    requires AllHttp(facts)
    ensures DecisionsOn(config, AllRecorded(redactor, Inputs(facts)))
            == Decisions(config.policy, AllRedacted(redactor, facts))
  {
    if facts != [] {
      InputsRedecided(config, redactor, facts[1..]);
      RecordedInParts(config, redactor, [AuditLog.PolicyInput(facts[0])], Inputs(facts[1..]));
      OneRecorded(config, redactor, facts[0]);
    }
  }

  /** Replay makes the decisions on the redacted facts. */
  lemma RedecidedExactly(
    config: ReplayConfig, redactor: AuditLog.Redactor, snapshot: Destination.Snapshot, facts: seq<Acl.PolicyFacts>)
    requires AllHttp(facts)
    ensures HttpDecisionsIn(Owed(snapshot, facts, None)) == Decisions(snapshot.policy, facts)
    ensures Redecided(config, redactor, snapshot, facts) == Decisions(config.policy, AllRedacted(redactor, facts))
  {
    OwedHolds(snapshot, facts, None);
    InputsRedecided(config, redactor, facts);
  }

  predicate AllSpared(redactor: AuditLog.Redactor, facts: seq<Acl.PolicyFacts>) {
    forall i | 0 <= i < |facts| :: MaskedFacts(facts[i]) && Spared(redactor, facts[i])
  }

  lemma {:induction false} DecisionsAlike(
    policy: Acl.AclPolicy, redactor: AuditLog.Redactor, facts: seq<Acl.PolicyFacts>)
    requires AllSpared(redactor, facts)
    ensures Decisions(policy, AllRedacted(redactor, facts)) == Decisions(policy, facts)
  {
    if facts != [] {
      DecideAlike(policy, redactor, facts[0]);
      DecisionsAlike(policy, redactor, facts[1..]);
    }
  }

  /** Facts whose targets redaction left alone are decided again as they were. */
  lemma EvaluationReplays(
    config: ReplayConfig, redactor: AuditLog.Redactor, snapshot: Destination.Snapshot, facts: seq<Acl.PolicyFacts>)
    requires AllHttp(facts) && AllSpared(redactor, facts) && config.policy == snapshot.policy
    ensures Redecided(config, redactor, snapshot, facts) == HttpDecisionsIn(Owed(snapshot, facts, None))
  {
    RedecidedExactly(config, redactor, snapshot, facts);
    DecisionsAlike(config.policy, redactor, facts);
  }

  /** Under this policy, replay decides the request as the live proxy did. */
  predicate ReplaysUnder(
    policy: Acl.AclPolicy, config: ReplayConfig, redactor: AuditLog.Redactor, snapshot: Destination.Snapshot,
    facts: seq<Acl.PolicyFacts>)
  {
    Redecided(config.(policy := policy), redactor, snapshot.(policy := policy), facts)
    == HttpDecisionsIn(Owed(snapshot.(policy := policy), facts, None))
  }

  /** Whatever the policy, replay makes again the decisions on a request, if and only if redaction leaves
      its target as it was or there was no address to decide on. */
  lemma RequestReplaysIff(
    config: ReplayConfig, redactor: AuditLog.Redactor, snapshot: Destination.Snapshot, requested: Acl.RequestedFacts,
    addresses: seq<Destination.SocketAddr>, verb: string, path: string, headers: Acl.SanitizedHeaders)
    requires Masked(headers)
    ensures var facts := AllRequestFacts(requested, addresses, verb, path, headers);
            (addresses == [] || redactor.target(path) == path)
            <==> forall policy | Acl.Compiled(policy) :: ReplaysUnder(policy, config, redactor, snapshot, facts)
  {
    var facts := AllRequestFacts(requested, addresses, verb, path, headers);
    if addresses == [] || redactor.target(path) == path {
      forall policy | Acl.Compiled(policy) ensures ReplaysUnder(policy, config, redactor, snapshot, facts) {
        EvaluationReplays(config.(policy := policy), redactor, snapshot.(policy := policy), facts);
      }
    } else {
      var policy := PathPolicy(path);
      PathPolicySees(redactor, facts[0]);
      RedecidedExactly(config.(policy := policy), redactor, snapshot.(policy := policy), facts);
      assert Decisions(policy, AllRedacted(redactor, facts))[0] != Decisions(policy, facts)[0];
      assert !ReplaysUnder(policy, config, redactor, snapshot, facts);
    }
  }

  /** A whole exchange through the log, whatever other flows record meanwhile: authorization, the request at
      every address, the response, each on the snapshot current then. If they shared a policy, and
      redaction leaves the request target as it was, replay emits exactly their decisions, in order. */
  lemma ReplayedExchange(
    config: ReplayConfig, snapshot: Destination.Snapshot, wanted: Acl.RequestedFacts,
    lookup: Acl.RequestedFacts -> Option<seq<Destination.SocketAddr>>,
    asking: Destination.Snapshot, request: seq<Acl.PolicyFacts>,
    answering: Destination.Snapshot, response: seq<Acl.PolicyFacts>,
    drain: AuditLog.Drain, envelopes: seq<AuditLog.Envelope>, session: nat, transaction: Option<nat>)
    requires Matches(config, snapshot) && config.policy == asking.policy && config.policy == answering.policy
    requires AllHttp(request) && AllHttp(response)
    requires AllSpared(drain.redactor, request) && AllSpared(drain.redactor, response)
    requires SentFacts(envelopes, session, transaction)
             == FactsIn(Destination.WholePlan(snapshot, wanted, lookup).events)
                + (HttpFactsIn(Owed(asking, request, None)) + HttpFactsIn(Owed(answering, response, None)))
    ensures EmittedFromFacts(Output(config, AuditLog.Drained(drain, envelopes)), session, transaction)
            == DecisionsIn(Destination.WholePlan(snapshot, wanted, lookup).events)
               + (HttpDecisionsIn(Owed(asking, request, None)) + HttpDecisionsIn(Owed(answering, response, None)))
  {
    var planned := Destination.WholePlan(snapshot, wanted, lookup).events;
    var asked, answered := HttpFactsIn(Owed(asking, request, None)), HttpFactsIn(Owed(answering, response, None));
    EmittedInParts(config, drain, envelopes, session, transaction, FactsIn(planned), asked + answered);
    RecordedInParts(config, drain.redactor, asked, answered);
    AuthorizationRecorded(drain.redactor, planned);
    AuthorizationRederives(config, snapshot, wanted, lookup);
    EvaluationReplays(config, drain.redactor, asking, request);
    EvaluationReplays(config, drain.redactor, answering, response);
  }
}
