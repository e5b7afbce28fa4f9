/** Policy on HTTP requests and responses: the facts that are evaluated, what is recorded and refused,
    and when the recorded facts, as redaction leaves them, are decided as the live ones were. */
module HttpPolicy {
  import opened Common
  import opened AuditQueue
  import opened Domain
  import opened Hosts
  import opened Acl
  import AuditLog
  import Destination

  // ---- Header facts ----

  datatype Header = Header(name: string, value: string)

  /** Policy sees that a secret header is there, never its value. */
  function PolicyValue(header: Header): string {
    if AuditLog.SecretHeader(header.name) then AuditLog.REDACTED else header.value
  }

  /** The values policy sees under a name, in wire order. */
  function ValuesOf(wire: seq<Header>, name: string): seq<string> {
    if wire == [] then []
    else
      var before, last := ValuesOf(wire[..|wire| - 1], name), wire[|wire| - 1];
      if Lower(last.name) == name then before + [PolicyValue(last)] else before
  }

  /** The headers hold exactly the names on the wire, each with all its values. */
  ghost predicate Collects(headers: SanitizedHeaders, wire: seq<Header>) {
    forall name: string ::
      && (name in headers <==> ValuesOf(wire, name) != [])
      && (name in headers ==> headers[name] == ValuesOf(wire, name))
  }

  lemma CollectsNext(headers: SanitizedHeaders, wire: seq<Header>, last: Header)
    requires Collects(headers, wire)
    ensures var name := Lower(last.name);
            var values := if name in headers then headers[name] else [];
            Collects(headers[name := values + [PolicyValue(last)]], wire + [last])
  {
    assert (wire + [last])[..|wire|] == wire;
  }

  /** Collects the header facts of a message, one header at a time. */
  method PolicyHeaders(wire: seq<Header>) returns (headers: SanitizedHeaders)
    ensures Collects(headers, wire)
  {
    headers := map[];
    for i := 0 to |wire|
      invariant Collects(headers, wire[..i])
    {
      var name := Lower(wire[i].name);
      var values := if name in headers then headers[name] else [];
      CollectsNext(headers, wire[..i], wire[i]);
      TakeNext(wire, i);
      headers := headers[name := values + [PolicyValue(wire[i])]];
    }
    assert wire[..|wire|] == wire;
  }

  /** Every value of a secret header is the mark that redaction leaves. */
  predicate Masked(headers: SanitizedHeaders) {
    forall name | name in headers && AuditLog.SecretHeader(name) ::
      headers[name] != [] && forall v | v in headers[name] :: v == AuditLog.REDACTED
  }

  lemma LowerTwice(s: string)
    ensures Lower(Lower(s)) == Lower(s)
  {
  }

  lemma {:induction false} SecretValues(wire: seq<Header>, name: string)
    requires AuditLog.SecretHeader(name)
    ensures forall v | v in ValuesOf(wire, name) :: v == AuditLog.REDACTED
  {
    if wire != [] {
      SecretValues(wire[..|wire| - 1], name);
      LowerTwice(wire[|wire| - 1].name);
    }
  }

  /** The header facts the proxy collects hold no secret. */
  lemma CollectedIsMasked(headers: SanitizedHeaders, wire: seq<Header>)
    requires Collects(headers, wire)
    ensures Masked(headers)
  {
    forall name | name in headers && AuditLog.SecretHeader(name)
      ensures headers[name] != [] && forall v | v in headers[name] :: v == AuditLog.REDACTED
    {
      SecretValues(wire, name);
    }
  }

  // ---- Evaluation ----

  datatype HttpEvent =
    | FactsObserved(facts: PolicyFacts)
    | AclEvaluated(decision: Decision)
    | ActionExecuted(decision: Decision)

  function RequestFacts(
    requested: RequestedFacts, address: Destination.SocketAddr, verb: string, path: string, headers: SanitizedHeaders)
    : PolicyFacts
  {
    HttpRequest(ResolvedFacts(requested, address.ip), verb, path, headers)
  }

  /** The facts of a request, once per address it may be sent to. */
  function AllRequestFacts(
    requested: RequestedFacts, addresses: seq<Destination.SocketAddr>, verb: string, path: string,
    headers: SanitizedHeaders)
    : (r: seq<PolicyFacts>)
    ensures |r| == |addresses|
    ensures forall i | 0 <= i < |r| :: r[i] == RequestFacts(requested, addresses[i], verb, path, headers)
  {
    seq(|addresses|, i requires 0 <= i < |addresses| => RequestFacts(requested, addresses[i], verb, path, headers))
  }

  function Decisions(policy: AclPolicy, facts: seq<PolicyFacts>): seq<Decision> {
    if facts == [] then [] else [Decide(policy, facts[0])] + Decisions(policy, facts[1..])
  }

  /** Facts and the decision on them, one after the other; the first denial is carried out at the end. */
  function Owed(snapshot: Destination.Snapshot, facts: seq<PolicyFacts>, denial: Option<Decision>): seq<HttpEvent> {
    if facts == [] then if denial.Some? then [ActionExecuted(denial.value)] else []
    else
      var decision := Decide(snapshot.policy, facts[0]);
      [FactsObserved(facts[0]), AclEvaluated(decision)]
      + Owed(snapshot, facts[1..], Destination.Remember(snapshot, denial, [decision]))
  }

  function Verdict(snapshot: Destination.Snapshot, facts: seq<PolicyFacts>, denial: Option<Decision>)
    : Result<(), Destination.ProxyError>
  {
    var first := Destination.Remember(snapshot, denial, Decisions(snapshot.policy, facts));
    if first.Some? then Failure(Destination.PolicyDenied(first.value)) else Success(())
  }

  lemma OwedNext(snapshot: Destination.Snapshot, facts: seq<PolicyFacts>, i: nat, denial: Option<Decision>)
    requires i < |facts|
    ensures var decision := Decide(snapshot.policy, facts[i]);
            var remembered := Destination.Remember(snapshot, denial, [decision]);
            && Owed(snapshot, facts[i..], denial)
               == [FactsObserved(facts[i]), AclEvaluated(decision)] + Owed(snapshot, facts[i + 1..], remembered)
            && Verdict(snapshot, facts[i..], denial) == Verdict(snapshot, facts[i + 1..], remembered)
  {
    var decision := Decide(snapshot.policy, facts[i]);
    assert facts[i..][0] == facts[i] && facts[i..][1..] == facts[i + 1..];
    assert [decision][1..] == [];
    Destination.FirstDeniedConcat(snapshot.enforcement, [decision], Decisions(snapshot.policy, facts[i + 1..]));
  }

  /** Evaluates a request at every address, on the snapshot current on entry. */
  method EvaluateRequest(
    snapshot: Destination.Snapshot, requested: RequestedFacts, addresses: seq<Destination.SocketAddr>, verb: string,
    path: string, headers: SanitizedHeaders, queue: Queue)
    returns (r: Result<(), Destination.ProxyError>, records: seq<HttpEvent>)
    ensures var facts := AllRequestFacts(requested, addresses, verb, path, headers);
            var owed := Owed(snapshot, facts, None);
            && records == Delivered(queue, owed)
            && r == if Refuses(queue, |owed|) then Failure(Destination.AuditFailed) else Verdict(snapshot, facts, None)
  {
    ghost var all := AllRequestFacts(requested, addresses, verb, path, headers);
    ghost var owed := Owed(snapshot, all, None);
    var left, denial := queue, None;
    records := [];
    assert all[0..] == all;
    for i := 0 to |addresses|
      invariant Remains(queue, owed, records, left, Owed(snapshot, all[i..], denial))
      invariant Verdict(snapshot, all, None) == Verdict(snapshot, all[i..], denial)
    {
      var facts := RequestFacts(requested, addresses[i], verb, path, headers);
      var decision := Decide(snapshot.policy, facts);
      var next := [FactsObserved(facts), AclEvaluated(decision)];
      OwedNext(snapshot, all, i, denial);
      denial := Destination.Remember(snapshot, denial, [decision]);
      RemainsStep(queue, owed, records, left, next, Owed(snapshot, all[i + 1..], denial));
      records := records + Delivered(left, next);
      if Refuses(left, |next|) {
        return Failure(Destination.AuditFailed), records;
      }
      left := After(left, |next|);
    }
    if denial.Some? {
      records := records + Delivered(left, [ActionExecuted(denial.value)]);
      r := if Refuses(left, 1) then Failure(Destination.AuditFailed)
      else Failure(Destination.PolicyDenied(denial.value));
    } else {
      r := Success(());
    }
  }

  lemma OneOwed(snapshot: Destination.Snapshot, facts: PolicyFacts)
    ensures var decision := Decide(snapshot.policy, facts);
            var permitted := Permits(snapshot.enforcement, decision);
            && Owed(snapshot, [facts], None)
               == [FactsObserved(facts), AclEvaluated(decision)]
                  + (if permitted then [] else [ActionExecuted(decision)])
            && Verdict(snapshot, [facts], None)
               == if permitted then Success(()) else Failure(Destination.PolicyDenied(decision))
  {
    var decision := Decide(snapshot.policy, facts);
    assert [decision][0] == decision && [decision][1..] == [];
    assert Destination.FirstDenied(snapshot.enforcement, [decision])
        == if Permits(snapshot.enforcement, decision) then None else Some(decision);
    assert [facts][0] == facts && [facts][1..] == [];
    assert Decisions(snapshot.policy, [facts]) == [decision];
  }

  /** Publishes one list of records and, unless that is refused, another. */
  method PublishBoth(queue: Queue, first: seq<HttpEvent>, second: seq<HttpEvent>)
    returns (ok: bool, records: seq<HttpEvent>)
    ensures records == Delivered(queue, first + second) && (ok <==> !Refuses(queue, |first + second|))
  {
    DeliveredConcat(queue, first, second);
    records := Delivered(queue, first);
    ok := !Refuses(queue, |first|);
    if ok {
      records := records + Delivered(After(queue, |first|), second);
      ok := !Refuses(After(queue, |first|), |second|);
    }
  }

  /** Evaluates a response, whose facts come once. */
  method EvaluateResponse(
    snapshot: Destination.Snapshot, target: ResolvedFacts, code: nat, headers: SanitizedHeaders, queue: Queue)
    returns (r: Result<(), Destination.ProxyError>, records: seq<HttpEvent>)
    ensures var facts := [HttpResponse(target, code, headers)];
            var owed := Owed(snapshot, facts, None);
            && records == Delivered(queue, owed)
            && r == if Refuses(queue, |owed|) then Failure(Destination.AuditFailed) else Verdict(snapshot, facts, None)
  {
    var facts := HttpResponse(target, code, headers);
    var decision := Decide(snapshot.policy, facts);
    var next := [FactsObserved(facts), AclEvaluated(decision)];
    var last := if Permits(snapshot.enforcement, decision) then [] else [ActionExecuted(decision)];
    OneOwed(snapshot, facts);
    var ok;
    ok, records := PublishBoth(queue, next, last);
    r := if !ok then Failure(Destination.AuditFailed)
    else if Permits(snapshot.enforcement, decision) then Success(())
    else Failure(Destination.PolicyDenied(decision));
  }

  /** Under enforcement a request is let through exactly when policy allows it at every address. */
  lemma {:induction false} AllowedEverywhere(snapshot: Destination.Snapshot, facts: seq<PolicyFacts>)
    requires snapshot.enforcement == Enforce
    ensures Verdict(snapshot, facts, None).Success?
            <==> forall i | 0 <= i < |facts| :: Decide(snapshot.policy, facts[i]).action == AllowFlow
  {
    if facts != [] {
      var decision := Decide(snapshot.policy, facts[0]);
      OwedNext(snapshot, facts, 0, None);
      AllowedEverywhere(snapshot, facts[1..]);
      assert facts[0..] == facts;
      assert forall i | 0 < i < |facts| :: facts[i] == facts[1..][i - 1];
    }
  }

  // ---- Redaction and replay ----

  /** Redaction rewrites nothing of these facts that a rule could see. */
  predicate Spared(redactor: AuditLog.Redactor, facts: PolicyFacts) {
    facts.HttpRequest? ==> redactor.target(facts.path) == facts.path
  }

  predicate MaskedFacts(facts: PolicyFacts) {
    facts.HeaderFacts().Some? ==> Masked(facts.HeaderFacts().value)
  }

  /** A mark in place of any number of marks is as good to every header condition. */
  lemma HeaderAlike(matcher: HeaderMatcher, redactor: AuditLog.Redactor, facts: PolicyFacts)
    requires MaskedFacts(facts)
    ensures EvalHeader(matcher, AuditLog.RedactedFacts(redactor, facts)) == EvalHeader(matcher, facts)
  {
    var name := Lower(matcher.name);
    if facts.HeaderFacts().Some? && name in facts.HeaderFacts().value && AuditLog.SecretHeader(name) {
      var values := facts.HeaderFacts().value[name];
      assert values[0] in values && AuditLog.REDACTED in [AuditLog.REDACTED];
    }
  }

  lemma LeafAlike(e: MatchExpression, redactor: AuditLog.Redactor, facts: PolicyFacts)
    requires e.IsLeaf() && MaskedFacts(facts) && Spared(redactor, facts)
    ensures EvalLeaf(e, AuditLog.RedactedFacts(redactor, facts)) == EvalLeaf(e, facts)
  {
    if e.HttpHeader? {
      HeaderAlike(e.matcher, redactor, facts);
    }
  }

  lemma {:induction false} EvalAlike(e: MatchExpression, redactor: AuditLog.Redactor, facts: PolicyFacts)
    requires MaskedFacts(facts) && Spared(redactor, facts)
    ensures Eval(e, AuditLog.RedactedFacts(redactor, facts)) == Eval(e, facts)
    decreases e, 1
  {
    if e.All? || e.Any? {
      EvalAllAlike(e.expressions, redactor, facts);
    } else if e.Not? {
      EvalAlike(e.expression, redactor, facts);
    } else {
      LeafAlike(e, redactor, facts);
    }
  }

  lemma {:induction false} EvalAllAlike(es: seq<MatchExpression>, redactor: AuditLog.Redactor, facts: PolicyFacts)
    requires MaskedFacts(facts) && Spared(redactor, facts)
    ensures EvalAll(es, AuditLog.RedactedFacts(redactor, facts)) == EvalAll(es, facts)
    ensures EvalAny(es, AuditLog.RedactedFacts(redactor, facts)) == EvalAny(es, facts)
    decreases es, 0
  {
    if es != [] {
      EvalAlike(es[0], redactor, facts);
      EvalAllAlike(es[1..], redactor, facts);
    }
  }

  lemma {:induction false} FirstMatchAlike(rules: seq<AclRule>, redactor: AuditLog.Redactor, facts: PolicyFacts)
    requires MaskedFacts(facts) && Spared(redactor, facts)
    ensures FirstMatch(rules, AuditLog.RedactedFacts(redactor, facts)) == FirstMatch(rules, facts)
  {
    if rules != [] {
      EvalAlike(rules[0].matcher, redactor, facts);
      FirstMatchAlike(rules[1..], redactor, facts);
    }
  }

  lemma DecideAlike(policy: AclPolicy, redactor: AuditLog.Redactor, facts: PolicyFacts)
    requires MaskedFacts(facts) && Spared(redactor, facts)
    ensures Decide(policy, AuditLog.RedactedFacts(redactor, facts)) == Decide(policy, facts)
  {
    FirstMatchAlike(policy.rules, redactor, facts);
    var selected := FirstMatch(policy.rules, facts);
    if selected.Some? {
      EvalAlike(policy.rules[selected.value].matcher, redactor, facts);
    }
  }

  /** A policy that tells a path from every other. */
  function PathPolicy(path: string): AclPolicy {
    AclPolicy(0, [AclRule("path", HttpPathPrefix(path), Deny)], Allow)
  }

  lemma PathPolicySees(redactor: AuditLog.Redactor, facts: PolicyFacts)
    requires facts.HttpRequest? && redactor.target(facts.path) != facts.path
    ensures Compiled(PathPolicy(facts.path))
    ensures Decide(PathPolicy(facts.path), AuditLog.RedactedFacts(redactor, facts))
            != Decide(PathPolicy(facts.path), facts)
  {
    var rule := AclRule("path", HttpPathPrefix(facts.path), Deny);
    assert PathPolicy(facts.path).rules == [rule] && [rule][0] == rule;
    assert Eval(rule.matcher, facts) == Matched([MatchReason("http-path", Text(facts.path))]);
    assert FirstMatch([rule], facts) == Some(0);
  }

  /** Every policy decides redacted facts as it decided the live ones if and only if redaction left the
      request target as it was. Redacted headers make no difference, though the log holds one mark where
      policy saw several. */
  lemma RedactionUnseenIff(redactor: AuditLog.Redactor, facts: PolicyFacts)
    requires MaskedFacts(facts)
    ensures Spared(redactor, facts)
            <==> forall policy | Compiled(policy) ::
                   Decide(policy, AuditLog.RedactedFacts(redactor, facts)) == Decide(policy, facts)
  {
    if Spared(redactor, facts) {
      forall policy | Compiled(policy)
        ensures Decide(policy, AuditLog.RedactedFacts(redactor, facts)) == Decide(policy, facts)
      {
        DecideAlike(policy, redactor, facts);
      }
    } else {
      PathPolicySees(redactor, facts);
    }
  }
}
