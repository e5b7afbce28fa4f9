/** What the evaluator and every compiled policy guarantee across lifecycle stages. */
module AclProperties {
  import opened Common
  import opened Domain
  import opened Acl

  // ---- Strong Kleene logic as the reference meaning ----

  datatype Truth = True | False | Unknown

  function Verdict(r: ExpressionResult): Truth {
    match r
    case Matched(_) => True
    case DidNotMatch => False
    case Unavailable => Unknown
  }

  /** The meaning of an expression, stated over all operands at once. */
  function Kleene(e: MatchExpression, facts: PolicyFacts): Truth {
    match e
    case All(es) =>
      if exists x | x in es :: Kleene(x, facts) == False then False
      else if forall x | x in es :: Kleene(x, facts) == True then True
      else Unknown
    case Any(es) =>
      if exists x | x in es :: Kleene(x, facts) == True then True
      else if forall x | x in es :: Kleene(x, facts) == False then False
      else Unknown
    case Not(x) =>
      (match Kleene(x, facts)
       case True => False
       case False => True
       case Unknown => Unknown)
    case _ => Verdict(EvalLeaf(e, facts))
  }

  /** The evaluator computes strong Kleene logic. */
  lemma {:induction false} EvalIsKleene(e: MatchExpression, facts: PolicyFacts)
    ensures Verdict(Eval(e, facts)) == Kleene(e, facts)
    decreases e, 1
  {
    match e {
      case All(es) => AllIsKleene(es, facts);
      case Any(es) => AnyIsKleene(es, facts);
      case Not(x) => EvalIsKleene(x, facts);
      case _ =>
    }
  }

  lemma {:induction false} AllIsKleene(es: seq<MatchExpression>, facts: PolicyFacts)
    ensures EvalAll(es, facts).DidNotMatch? <==> exists x | x in es :: Kleene(x, facts) == False
    ensures EvalAll(es, facts).Matched? <==> forall x | x in es :: Kleene(x, facts) == True
    decreases es, 0
  {
    if es != [] {
      EvalIsKleene(es[0], facts);
      AllIsKleene(es[1..], facts);
      assert forall x :: x in es <==> x == es[0] || x in es[1..];
    }
  }

  lemma {:induction false} AnyIsKleene(es: seq<MatchExpression>, facts: PolicyFacts)
    ensures EvalAny(es, facts).Matched? <==> exists x | x in es :: Kleene(x, facts) == True
    ensures EvalAny(es, facts).DidNotMatch? <==> forall x | x in es :: Kleene(x, facts) == False
    decreases es, 0
  {
    if es != [] {
      EvalIsKleene(es[0], facts);
      AnyIsKleene(es[1..], facts);
      assert forall x :: x in es <==> x == es[0] || x in es[1..];
    }
  }

  // ---- Monotonicity ----

  lemma LeafIsMonotone(e: MatchExpression, f: PolicyFacts, g: PolicyFacts)
    requires e.IsLeaf() && Later(f, g)
    ensures Kleene(e, f) != Unknown ==> Kleene(e, g) == Kleene(e, f)
  {
  }

  /** A definite verdict never changes at a later stage of the same flow. */
  lemma {:induction false} DefiniteStays(e: MatchExpression, f: PolicyFacts, g: PolicyFacts)
    requires Later(f, g)
    ensures Kleene(e, f) != Unknown ==> Kleene(e, g) == Kleene(e, f)
  {
    match e {
      case All(es) =>
        forall x | x in es ensures Kleene(x, f) != Unknown ==> Kleene(x, g) == Kleene(x, f) {
          DefiniteStays(x, f, g);
        }
      case Any(es) =>
        forall x | x in es ensures Kleene(x, f) != Unknown ==> Kleene(x, g) == Kleene(x, f) {
          DefiniteStays(x, f, g);
        }
      case Not(x) => DefiniteStays(x, f, g);
      case _ => LeafIsMonotone(e, f, g);
    }
  }

  /** No rule before the selected one lacks facts. */
  predicate SettledBefore(rules: seq<AclRule>, facts: PolicyFacts, i: nat) {
    i <= |rules| && forall j | 0 <= j < i :: Eval(rules[j].matcher, facts).DidNotMatch?
  }

  lemma RuleStays(rule: AclRule, f: PolicyFacts, g: PolicyFacts)
    requires Later(f, g)
    ensures Eval(rule.matcher, f).Matched? ==> Eval(rule.matcher, g).Matched?
    ensures Eval(rule.matcher, f).DidNotMatch? ==> Eval(rule.matcher, g).DidNotMatch?
  {
    EvalIsKleene(rule.matcher, f);
    EvalIsKleene(rule.matcher, g);
    DefiniteStays(rule.matcher, f, g);
  }

  lemma SelectionUnique(rules: seq<AclRule>, facts: PolicyFacts, i: nat)
    requires Selects(rules, facts, i)
    ensures FirstMatch(rules, facts) == Some(i)
  {
  }

  /** A rule selected with every earlier rule settled stays selected, with the same action. */
  lemma SelectionStays(policy: AclPolicy, f: PolicyFacts, g: PolicyFacts, i: nat)
    requires Later(f, g) && Selects(policy.rules, f, i) && SettledBefore(policy.rules, f, i)
    ensures Selects(policy.rules, g, i)
    ensures Decide(policy, g).matchedRule == Decide(policy, f).matchedRule == Some(policy.rules[i].id)
    ensures Decide(policy, g).action == Decide(policy, f).action
  {
    RuleStays(policy.rules[i], f, g);
    forall j | 0 <= j < i ensures !Eval(policy.rules[j].matcher, g).Matched? {
      RuleStays(policy.rules[j], f, g);
    }
    SelectionUnique(policy.rules, f, i);
    SelectionUnique(policy.rules, g, i);
  }

  /** A default reached with every rule settled stays the outcome. */
  lemma DefaultStays(policy: AclPolicy, f: PolicyFacts, g: PolicyFacts)
    requires Later(f, g) && SettledBefore(policy.rules, f, |policy.rules|)
    ensures FirstMatch(policy.rules, g).None? && Decide(policy, g).action == Decide(policy, f).action
  {
    forall j | 0 <= j < |policy.rules|
      ensures !Eval(policy.rules[j].matcher, g).Matched? && !Eval(policy.rules[j].matcher, f).Matched?
    {
      RuleStays(policy.rules[j], f, g);
    }
  }

  // ---- Reasons ----

  /** Every match in a well-formed expression explains itself. */
  lemma {:induction false} MatchHasReason(e: MatchExpression, facts: PolicyFacts)
    requires WellFormed(e) && Eval(e, facts).Matched?
    ensures Eval(e, facts).reasons != []
    decreases e, 1
  {
    match e {
      case All(es) => MatchHasReason(es[0], facts);
      case Any(es) => AnyHasReason(es, facts);
      case Not(_) =>
      case _ =>
    }
  }

  lemma {:induction false} AnyHasReason(es: seq<MatchExpression>, facts: PolicyFacts)
    requires forall x | x in es :: WellFormed(x)
    requires EvalAny(es, facts).Matched?
    ensures EvalAny(es, facts).reasons != []
    decreases es, 0
  {
    if Eval(es[0], facts).Matched? {
      MatchHasReason(es[0], facts);
    } else {
      AnyHasReason(es[1..], facts);
    }
  }

  /** Every decision of a compiled policy carries at least one reason. */
  lemma DecisionHasReason(policy: AclPolicy, facts: PolicyFacts)
    requires Compiled(policy)
    ensures Decide(policy, facts).reasons != []
  {
    var selected := FirstMatch(policy.rules, facts);
    if selected.Some? {
      assert policy.rules[selected.value] in policy.rules;
      MatchHasReason(policy.rules[selected.value].matcher, facts);
    }
  }

  // ---- Detours ----

  predicate Settled(e: MatchExpression, f: PolicyFacts, g: PolicyFacts) {
    Kleene(e, f) == Kleene(e, g) != Unknown
  }

  lemma AllSettled(es: seq<MatchExpression>, f: PolicyFacts, g: PolicyFacts)
    requires forall x | x in es :: Settled(x, f, g)
    ensures Settled(All(es), f, g)
  {
  }

  lemma AnySettled(es: seq<MatchExpression>, f: PolicyFacts, g: PolicyFacts)
    requires forall x | x in es :: Settled(x, f, g)
    ensures Settled(Any(es), f, g)
  {
  }

  lemma LeafSettled(e: MatchExpression, f: PolicyFacts, g: PolicyFacts)
    requires e.IsLeaf() && IsRequestedStage(e) && f.Wanted() == g.Wanted()
    ensures Settled(e, f, g)
  {
  }

  /** Requested-stage expressions are decided by the requested facts alone. */
  lemma {:induction false} RequestedStageDecides(e: MatchExpression, f: PolicyFacts, g: PolicyFacts)
    requires IsRequestedStage(e) && f.Wanted() == g.Wanted()
    ensures Settled(e, f, g)
  {
    if e.All? || e.Any? {
      var es := e.expressions;
      forall x | x in es ensures Settled(x, f, g) {
        RequestedStageDecides(x, f, g);
      }
      AllSettled(es, f, g);
      AnySettled(es, f, g);
    } else if e.Not? {
      RequestedStageDecides(e.expression, f, g);
    } else {
      LeafSettled(e, f, g);
    }
  }

  /** An expression that requires TCP only matches TCP flows. */
  lemma {:induction false} TcpIsRequired(e: MatchExpression, facts: PolicyFacts)
    requires RequiresTcp(e) && Kleene(e, facts) == True
    ensures facts.Wanted().protocol == Tcp
  {
    match e {
      case All(es) =>
        var x :| x in es && RequiresTcp(x);
        TcpIsRequired(x, facts);
      case Any(es) =>
        var x :| x in es && Kleene(x, facts) == True;
        TcpIsRequired(x, facts);
      case _ =>
    }
  }

  /** In a compiled policy a selected detour rule always governs a TCP flow, so the HTTP
      fallback for detours never applies. */
  lemma DetourIsTcp(policy: AclPolicy, facts: PolicyFacts, i: nat)
    requires Compiled(policy) && Selects(policy.rules, facts, i) && policy.rules[i].action.Detour?
    ensures facts.Wanted().protocol == Tcp
    ensures Decide(policy, facts).action == TcpDetour(policy.rules[i].action.destination)
  {
    var rule := policy.rules[i];
    assert rule in policy.rules;
    EvalIsKleene(rule.matcher, facts);
    TcpIsRequired(rule.matcher, facts);
    SelectionUnique(policy.rules, facts, i);
  }

  /** A detour selected on facts of any stage was already selected on the requested facts,
      by the same rule. */
  lemma DetourKnownWhenRequested(policy: AclPolicy, facts: PolicyFacts)
    requires Compiled(policy) && Decide(policy, facts).action.TcpDetour?
    ensures Decide(policy, Requested(facts.Wanted())).action == Decide(policy, facts).action
    ensures Decide(policy, Requested(facts.Wanted())).matchedRule == Decide(policy, facts).matchedRule
  {
    var asked := Requested(facts.Wanted());
    var i := FirstMatch(policy.rules, facts).value;
    var rule := policy.rules[i];
    assert rule in policy.rules;
    EvalIsKleene(rule.matcher, facts);
    EvalIsKleene(rule.matcher, asked);
    RequestedStageDecides(rule.matcher, facts, asked);
    forall j | 0 <= j < i ensures !Eval(policy.rules[j].matcher, asked).Matched? {
      RuleStays(policy.rules[j], asked, facts);
    }
    SelectionUnique(policy.rules, asked, i);
  }
}
