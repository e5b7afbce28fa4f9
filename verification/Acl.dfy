/** The ACL: boolean expressions over staged facts, the three-valued evaluator, the policy
    compiler and ordered first-match selection. */
module Acl {
  import opened Common
  import opened Domain
  import opened Hosts

  // ---- Facts ----

  datatype RequestedFacts = RequestedFacts(sourceIp: IpAddr, host: TargetHost, port: nat, protocol: Protocol)

  datatype ResolvedFacts = ResolvedFacts(requested: RequestedFacts, resolvedIp: IpAddr)

  /** Header names are stored in lower case. */
  type SanitizedHeaders = map<string, seq<string>>

  datatype PolicyFacts =
    | Requested(asked: RequestedFacts)
    | Resolved(target: ResolvedFacts)
    | HttpRequest(target: ResolvedFacts, verb: string, path: string, headers: SanitizedHeaders)
    | HttpResponse(target: ResolvedFacts, code: nat, headers: SanitizedHeaders)
  {
    function Stage(): PolicyStage {
      match this
      case Requested(_) => RequestedDestination
      case Resolved(_) => ResolvedDestination
      case HttpRequest(_, _, _, _) => HttpRequestStage
      case HttpResponse(_, _, _) => HttpResponseStage
    }

    function Wanted(): RequestedFacts {
      if Requested? then asked else target.requested
    }

    function ResolvedIp(): Option<IpAddr> {
      if Requested? then None else Some(target.resolvedIp)
    }

    function HeaderFacts(): Option<SanitizedHeaders> {
      if HttpRequest? || HttpResponse? then Some(headers) else None
    }
  }

  /** `g` is the same flow at the same or a later stage. A response is not later than its request:
      the request line is no longer available to it. */
  predicate Later(f: PolicyFacts, g: PolicyFacts) {
    || f == g
    || (f.Requested? && g.Wanted() == f.asked)
    || (f.Resolved? && (g.HttpRequest? || g.HttpResponse?) && g.target == f.target)
  }

  // ---- Expressions ----

  function Pow2(n: nat): nat
    ensures Pow2(n) > 0
  {
    if n == 0 then 1 else 2 * Pow2(n - 1)
  }

  datatype IpNet = IpNet(base: IpAddr, prefix: nat) {
    /** Same family and the same leading `prefix` bits. */
    predicate Contains(ip: IpAddr) {
      match (base, ip)
      case (V4(b), V4(a)) => b / Pow2(SaturatingSub(32, prefix)) == a / Pow2(SaturatingSub(32, prefix))
      case (V6(b), V6(a)) => b / Pow2(SaturatingSub(128, prefix)) == a / Pow2(SaturatingSub(128, prefix))
      case _ => false
    }
  }

  datatype HeaderMatcher = HeaderMatcher(name: string, valueContains: Option<string>)

  datatype MatchExpression =
    | All(expressions: seq<MatchExpression>)
    | Any(expressions: seq<MatchExpression>)
    | Not(expression: MatchExpression)
    | SourceIp(network: IpNet)
    | DestinationIp(network: IpNet)
    | DestinationHost(pattern: HostPattern)
    | DestinationPort(first: nat, last: nat)
    | ProtocolIs(protocol: Protocol)
    | HttpMethod(methods: set<string>)
    | HttpPathPrefix(prefix: string)
    | HttpHeader(matcher: HeaderMatcher)
  {
    predicate IsLeaf() {
      !All? && !Any? && !Not?
    }
  }

  datatype ExpressionResult = Matched(reasons: seq<MatchReason>) | DidNotMatch | Unavailable

  function Leaf(observed: bool, criterion: string, value: Observed): ExpressionResult {
    if observed then Matched([MatchReason(criterion, value)]) else DidNotMatch
  }

  predicate WindowIs(value: string, needle: string, i: int) {
    0 <= i <= |value| - |needle| && value[i..i + |needle|] == needle
  }

  predicate Occurs(value: string, needle: string) {
    exists i | 0 <= i <= |value| :: WindowIs(value, needle, i)
  }

  function EvalHeader(matcher: HeaderMatcher, facts: PolicyFacts): ExpressionResult {
    var name := Lower(matcher.name);
    if facts.HeaderFacts().None? then Unavailable
    else if name !in facts.HeaderFacts().value then DidNotMatch
    else
      var values := facts.HeaderFacts().value[name];
      Leaf(
        matcher.valueContains.None? || matcher.valueContains.value == [] ||
        exists v | v in values :: Occurs(v, matcher.valueContains.value),
        "http-header", Text(name))
  }

  function EvalLeaf(e: MatchExpression, facts: PolicyFacts): ExpressionResult
    requires e.IsLeaf()
  {
    var wanted := facts.Wanted();
    match e
    case SourceIp(network) => Leaf(network.Contains(wanted.sourceIp), "source-ip", IpText(wanted.sourceIp))
    case DestinationIp(network) =>
      var ip := facts.ResolvedIp();
      if ip.None? then Unavailable else Leaf(network.Contains(ip.value), "destination-ip", IpText(ip.value))
    case DestinationHost(pattern) =>
      Leaf(MatchesTarget(pattern, wanted.host), "destination-host", HostText(wanted.host))
    case DestinationPort(first, last) => Leaf(first <= wanted.port <= last, "destination-port", PortText(wanted.port))
    case ProtocolIs(protocol) => Leaf(protocol == wanted.protocol, "protocol", ProtocolText(wanted.protocol))
    case HttpMethod(methods) =>
      if !facts.HttpRequest? then Unavailable
      else Leaf(exists m | m in methods :: Lower(m) == Lower(facts.verb), "http-method", Text(facts.verb))
    case HttpPathPrefix(prefix) =>
      if !facts.HttpRequest? then Unavailable else Leaf(prefix <= facts.path, "http-path", Text(facts.path))
    case HttpHeader(matcher) => EvalHeader(matcher, facts)
  }

  /** Conjunction: a failure decides, then missing facts, then all reasons in order. */
  function Both(a: ExpressionResult, b: ExpressionResult): ExpressionResult {
    if a.DidNotMatch? || b.DidNotMatch? then DidNotMatch
    else if a.Unavailable? || b.Unavailable? then Unavailable
    else Matched(a.reasons + b.reasons)
  }

  /** Disjunction: the first match decides, then missing facts. */
  function Either(a: ExpressionResult, b: ExpressionResult): ExpressionResult {
    if a.Matched? then a
    else if b.Matched? then b
    else if a.Unavailable? || b.Unavailable? then Unavailable
    else DidNotMatch
  }

  function Negated(a: ExpressionResult): ExpressionResult {
    match a
    case Matched(_) => DidNotMatch
    case DidNotMatch => Matched([MatchReason("not", Text("nested expression did not match"))])
    case Unavailable => Unavailable
  }

  function Eval(e: MatchExpression, facts: PolicyFacts): ExpressionResult
    decreases e, 1
  {
    match e
    case All(expressions) => EvalAll(expressions, facts)
    case Any(expressions) => EvalAny(expressions, facts)
    case Not(expression) => Negated(Eval(expression, facts))
    case _ => EvalLeaf(e, facts)
  }

  function EvalAll(es: seq<MatchExpression>, facts: PolicyFacts): ExpressionResult
    decreases es, 0
  {
    if es == [] then Matched([]) else Both(Eval(es[0], facts), EvalAll(es[1..], facts))
  }

  function EvalAny(es: seq<MatchExpression>, facts: PolicyFacts): ExpressionResult
    decreases es, 0
  {
    if es == [] then DidNotMatch else Either(Eval(es[0], facts), EvalAny(es[1..], facts))
  }

  lemma BothAssociates(a: ExpressionResult, b: ExpressionResult, c: ExpressionResult)
    ensures Both(Both(a, b), c) == Both(a, Both(b, c))
  {
  }

  /** The evaluator, with the source's accumulator loops and early returns. */
  method EvaluateExpression(e: MatchExpression, facts: PolicyFacts) returns (r: ExpressionResult)
    ensures r == Eval(e, facts)
    decreases e, 1
  {
    if e.All? {
      r := EvaluateAll(e.expressions, facts);
    } else if e.Any? {
      r := EvaluateAny(e.expressions, facts);
    } else if e.Not? {
      r := EvaluateExpression(e.expression, facts);
      r := Negated(r);
    } else {
      r := EvalLeaf(e, facts);
    }
  }

  method EvaluateAll(es: seq<MatchExpression>, facts: PolicyFacts) returns (r: ExpressionResult)
    ensures r == EvalAll(es, facts)
    decreases es, 0
  {
    var reasons: seq<MatchReason> := [];
    var unavailable := false;
    assert es[0..] == es;
    for i := 0 to |es|
      invariant EvalAll(es, facts)
                == Both(if unavailable then Unavailable else Matched(reasons), EvalAll(es[i..], facts))
    {
      assert es[i..][1..] == es[i + 1..];
      var nested := EvaluateExpression(es[i], facts);
      BothAssociates(if unavailable then Unavailable else Matched(reasons), nested, EvalAll(es[i + 1..], facts));
      match nested {
        case Matched(more) => reasons := reasons + more;
        case DidNotMatch => return DidNotMatch;
        case Unavailable => unavailable := true;
      }
    }
    return if unavailable then Unavailable else Matched(reasons);
  }

  method EvaluateAny(es: seq<MatchExpression>, facts: PolicyFacts) returns (r: ExpressionResult)
    ensures r == EvalAny(es, facts)
    decreases es, 0
  {
    var unavailable := false;
    assert es[0..] == es;
    for i := 0 to |es|
      invariant EvalAny(es, facts)
                == Either(if unavailable then Unavailable else DidNotMatch, EvalAny(es[i..], facts))
    {
      assert es[i..][1..] == es[i + 1..];
      var nested := EvaluateExpression(es[i], facts);
      match nested {
        case Matched(_) => return nested;
        case DidNotMatch =>
        case Unavailable => unavailable := true;
      }
    }
    return if unavailable then Unavailable else DidNotMatch;
  }

  // ---- Policies ----

  datatype AclRule = AclRule(id: string, matcher: MatchExpression, action: RuleAction)

  datatype AclPolicy = AclPolicy(generation: nat, rules: seq<AclRule>, defaultAction: RuleAction)

  datatype PolicyError =
    | DuplicateRule(id: string)
    | EmptyBooleanExpression(id: string, operator: string)
    | InvalidDetourRule(id: string)
    | InvalidDefaultDetour

  /** No `all` or `any` is empty, at any depth. */
  predicate WellFormed(e: MatchExpression) {
    match e
    case All(es) => es != [] && forall x | x in es :: WellFormed(x)
    case Any(es) => es != [] && forall x | x in es :: WellFormed(x)
    case Not(x) => WellFormed(x)
    case _ => true
  }

  /** The operator of the first empty boolean met in order, if any. */
  function EmptyOperator(e: MatchExpression): Option<string>
    decreases e, 1
  {
    match e
    case All(es) => if es == [] then Some("all") else EmptyOperatorIn(es)
    case Any(es) => if es == [] then Some("any") else EmptyOperatorIn(es)
    case Not(x) => EmptyOperator(x)
    case _ => None
  }

  function EmptyOperatorIn(es: seq<MatchExpression>): Option<string>
    decreases es, 0
  {
    if es == [] then None
    else
      var first := EmptyOperator(es[0]);
      if first.Some? then first else EmptyOperatorIn(es[1..])
  }

  predicate IsRequestedStage(e: MatchExpression) {
    match e
    case All(es) => forall x | x in es :: IsRequestedStage(x)
    case Any(es) => forall x | x in es :: IsRequestedStage(x)
    case Not(x) => IsRequestedStage(x)
    case DestinationIp(_) => false
    case HttpMethod(_) => false
    case HttpPathPrefix(_) => false
    case HttpHeader(_) => false
    case _ => true
  }

  predicate RequiresTcp(e: MatchExpression) {
    match e
    case All(es) => exists x | x in es :: RequiresTcp(x)
    case Any(es) => es != [] && forall x | x in es :: RequiresTcp(x)
    case ProtocolIs(protocol) => protocol == Tcp
    case _ => false
  }

  predicate ValidDetour(rule: AclRule) {
    rule.action.Detour? ==> IsRequestedStage(rule.matcher) && RequiresTcp(rule.matcher)
  }

  predicate ValidRule(rule: AclRule) {
    WellFormed(rule.matcher) && ValidDetour(rule)
  }

  predicate UniqueIds(rules: seq<AclRule>) {
    forall i, j | 0 <= i < j < |rules| :: rules[i].id != rules[j].id
  }

  /** What the compiler guarantees of every policy it accepts. */
  predicate Compiled(policy: AclPolicy) {
    && UniqueIds(policy.rules)
    && (forall rule | rule in policy.rules :: ValidRule(rule))
    && !policy.defaultAction.Detour?
  }

  lemma {:induction false} EmptyOperatorExact(e: MatchExpression)
    ensures EmptyOperator(e).None? <==> WellFormed(e)
    decreases e, 1
  {
    match e {
      case All(es) => EmptyOperatorInExact(es);
      case Any(es) => EmptyOperatorInExact(es);
      case Not(x) => EmptyOperatorExact(x);
      case _ =>
    }
  }

  lemma {:induction false} EmptyOperatorInExact(es: seq<MatchExpression>)
    ensures EmptyOperatorIn(es).None? <==> forall x | x in es :: WellFormed(x)
    decreases es, 0
  {
    if es != [] {
      EmptyOperatorExact(es[0]);
      EmptyOperatorInExact(es[1..]);
      assert es == [es[0]] + es[1..];
    }
  }

  /** The first defect of one rule, in the order checked, given the identities before it. */
  function RuleError(rule: AclRule, earlier: set<string>): Option<PolicyError> {
    if rule.id in earlier then Some(DuplicateRule(rule.id))
    else if EmptyOperator(rule.matcher).Some? then
      Some(EmptyBooleanExpression(rule.id, EmptyOperator(rule.matcher).value))
    else if !ValidDetour(rule) then Some(InvalidDetourRule(rule.id))
    else None
  }

  function Ids(rules: seq<AclRule>): set<string> {
    set rule | rule in rules :: rule.id
  }

  /** Accepts exactly the policies worth compiling, and reports the first defect otherwise. */
  method NewPolicy(generation: nat, rules: seq<AclRule>, defaultAction: RuleAction)
    returns (r: Result<AclPolicy, PolicyError>)
    ensures r.Success? <==> Compiled(AclPolicy(generation, rules, defaultAction))
    ensures r.Success? ==> r.value == AclPolicy(generation, rules, defaultAction)
    ensures r.Failure? && r.error != InvalidDefaultDetour ==>
              exists i :: 0 <= i < |rules| && RuleError(rules[i], Ids(rules[..i])) == Some(r.error)
                          && forall j | 0 <= j < i :: RuleError(rules[j], Ids(rules[..j])).None?
    ensures r == Failure(InvalidDefaultDetour) <==>
            defaultAction.Detour? && forall j | 0 <= j < |rules| :: RuleError(rules[j], Ids(rules[..j])).None?
  {
    var ids: set<string> := {};
    for i := 0 to |rules|
      invariant ids == Ids(rules[..i]) && UniqueIds(rules[..i])
      invariant forall j | 0 <= j < i :: RuleError(rules[j], Ids(rules[..j])).None? && ValidRule(rules[j])
    {
      var rule := rules[i];
      var error := RuleError(rule, ids);
      EmptyOperatorExact(rule.matcher);
      IdsExtend(rules, i);
      if error.Some? {
        assert rule in rules;
        return Failure(error.value);
      }
      ids := ids + {rule.id};
    }
    assert rules[..|rules|] == rules;
    if defaultAction.Detour? {
      return Failure(InvalidDefaultDetour);
    }
    return Success(AclPolicy(generation, rules, defaultAction));
  }

  lemma IdsExtend(rules: seq<AclRule>, i: nat)
    requires i < |rules| && UniqueIds(rules[..i])
    ensures Ids(rules[..i + 1]) == Ids(rules[..i]) + {rules[i].id}
    ensures UniqueIds(rules[..i + 1]) <==> rules[i].id !in Ids(rules[..i])
    ensures rules[i].id in Ids(rules[..i]) ==> !UniqueIds(rules)
  {
  }

  // ---- First match ----

  /** Rule `i` is the first that matches. */
  predicate Selects(rules: seq<AclRule>, facts: PolicyFacts, i: nat) {
    && i < |rules| && Eval(rules[i].matcher, facts).Matched?
    && forall j | 0 <= j < i :: !Eval(rules[j].matcher, facts).Matched?
  }

  function FirstMatch(rules: seq<AclRule>, facts: PolicyFacts): (r: Option<nat>)
    ensures r.Some? ==> Selects(rules, facts, r.value)
    ensures r.None? ==> forall rule | rule in rules :: !Eval(rule.matcher, facts).Matched?
  {
    if rules == [] then None
    else if Eval(rules[0].matcher, facts).Matched? then Some(0)
    else
      var rest := FirstMatch(rules[1..], facts);
      assert rules == [rules[0]] + rules[1..];
      if rest.Some? then Some(rest.value + 1) else None
  }

  function ActionFor(action: RuleAction, protocol: Protocol): EnforcementAction {
    match (action, protocol)
    case (Allow, _) => AllowFlow
    case (Deny, Http) => HttpReject
    case (Deny, Tcp) => TcpClose
    case (Detour(destination), Tcp) => TcpDetour(destination)
    case (Detour(_), Http) => HttpReject
  }

  function Decide(policy: AclPolicy, facts: PolicyFacts): Decision {
    var selected := FirstMatch(policy.rules, facts);
    var protocol := facts.Wanted().protocol;
    if selected.Some? then
      var rule := policy.rules[selected.value];
      Decision(
        ActionFor(rule.action, protocol), policy.generation, facts.Stage(), Some(rule.id),
        Eval(rule.matcher, facts).reasons)
    else
      Decision(
        ActionFor(policy.defaultAction, protocol), policy.generation, facts.Stage(), None,
        [MatchReason("default-action", ActionText(policy.defaultAction))])
  }

  datatype AclRuleResult = RuleMatched | RuleDidNotMatch | UnavailableAtThisStage

  function RuleResult(rule: AclRule, facts: PolicyFacts): AclRuleResult {
    match Eval(rule.matcher, facts)
    case Matched(_) => RuleMatched
    case DidNotMatch => RuleDidNotMatch
    case Unavailable => UnavailableAtThisStage
  }

  /** Evaluates rules in order, recording an outcome per rule tried, and stops at the first match. */
  method Evaluate(policy: AclPolicy, facts: PolicyFacts) returns (decision: Decision, outcomes: seq<AclRuleResult>)
    ensures decision == Decide(policy, facts)
    ensures |outcomes| <= |policy.rules|
    ensures forall j | 0 <= j < |outcomes| :: outcomes[j] == RuleResult(policy.rules[j], facts)
    ensures |outcomes| == if FirstMatch(policy.rules, facts).Some? then FirstMatch(policy.rules, facts).value + 1
                          else |policy.rules|
  {
    outcomes := [];
    for i := 0 to |policy.rules|
      invariant |outcomes| == i
      invariant forall j | 0 <= j < i ::
                  outcomes[j] == RuleResult(policy.rules[j], facts) && !Eval(policy.rules[j].matcher, facts).Matched?
    {
      var rule := policy.rules[i];
      var result := EvaluateExpression(rule.matcher, facts);
      outcomes := outcomes + [RuleResult(rule, facts)];
      if result.Matched? {
        assert FirstMatch(policy.rules, facts) == Some(i) by {
          assert rule in policy.rules;
        }
        decision := Decision(
          ActionFor(rule.action, facts.Wanted().protocol), policy.generation, facts.Stage(), Some(rule.id),
          result.reasons);
        return;
      }
    }
    decision := Decision(
      ActionFor(policy.defaultAction, facts.Wanted().protocol), policy.generation, facts.Stage(), None,
      [MatchReason("default-action", ActionText(policy.defaultAction))]);
  }
}
