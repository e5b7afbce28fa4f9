/** Destination authorization: the built-in address guard, the detour loop, the check of every
    resolved address against one pinned snapshot, and the connection attempt. */
module Destination {
  import opened Common
  import opened AuditQueue
  import opened Domain
  import opened Acl
  import opened AclProperties

  // ---- Destination guard ----

  datatype Access = Protect | AllowAccess

  datatype GuardSettings = GuardSettings(privateNet: Access, linkLocal: Access, loopback: Access, metadata: Access)

  predicate InV4(ip: IpAddr, base: nat, prefix: nat) {
    IpNet(V4(base), prefix).Contains(ip)
  }

  predicate InV6(ip: IpAddr, base: nat, prefix: nat) {
    IpNet(V6(base), prefix).Contains(ip)
  }

  /** Unspecified or multicast. */
  predicate IsUnroutable(ip: IpAddr) {
    ip == V4(0) || InV4(ip, 0xE000_0000, 4) || ip == V6(0) || InV6(ip, 0xFF00_0000_0000_0000_0000_0000_0000_0000, 8)
  }

  predicate IsMetadata(ip: IpAddr) {
    ip == V4(0xA9FE_A9FE) || ip == V4(0x6464_64C8) || ip == V6(0xFD00_0EC2_0000_0000_0000_0000_0000_0254)
  }

  predicate IsLoopback(ip: IpAddr) {
    InV4(ip, 0x7F00_0000, 8) || ip == V6(1)
  }

  predicate IsLinkLocal(ip: IpAddr) {
    InV4(ip, 0xA9FE_0000, 16) || InV6(ip, 0xFE80_0000_0000_0000_0000_0000_0000_0000, 10)
  }

  predicate IsPrivate(ip: IpAddr) {
    || InV4(ip, 0x0A00_0000, 8) || InV4(ip, 0xAC10_0000, 12) || InV4(ip, 0xC0A8_0000, 16)
    || InV6(ip, 0xFC00_0000_0000_0000_0000_0000_0000_0000, 7)
  }

  /** The protected class an address falls in, explained by the first that applies. */
  function ProtectedClass(settings: GuardSettings, ip: IpAddr): Option<(string, string)> {
    if IsUnroutable(ip) then Some(("protect-unroutable-destination", "unroutable"))
    else if IsMetadata(ip) && settings.metadata.Protect? then
      Some(("protect-metadata-destination", "metadata-service"))
    else if IsLoopback(ip) && settings.loopback.Protect? then Some(("protect-loopback-destination", "loopback"))
    else if IsLinkLocal(ip) && settings.linkLocal.Protect? then
      Some(("protect-link-local-destination", "link-local"))
    else if IsPrivate(ip) && settings.privateNet.Protect? then Some(("protect-private-destination", "private"))
    else None
  }

  function GuardDecision(settings: GuardSettings, generation: nat, facts: ResolvedFacts): Option<Decision> {
    var class_ := ProtectedClass(settings, facts.resolvedIp);
    if class_.None? then None
    else
      Some(Decision(
             if facts.requested.protocol == Http then HttpReject else TcpClose,
             generation, ResolvedDestination, Some(class_.value.0),
             [MatchReason("destination-address-class", IpText(facts.resolvedIp))]))
  }

  // ---- What authorization is meant to do, on one snapshot ----

  datatype Snapshot = Snapshot(policy: AclPolicy, guard: GuardSettings, enforcement: EnforcementMode)

  datatype SocketAddr = SocketAddr(ip: IpAddr, port: nat)

  datatype ProxyError =
    | PolicyDenied(decision: Decision)
    | DetourLoop(decision: Decision)
    | AuditFailed
    | Unresolved
    | Shutdown
    | ConnectFailed(target: SocketAddr)
    | ConnectTimedOut(target: SocketAddr)
    | NoResolvedAddresses

  datatype AuditEvent =
    | RequestedObserved(wanted: RequestedFacts)
    | ResolvedObserved(target: ResolvedFacts)
    | TargetResolved(host: TargetHost, addresses: seq<IpAddr>)
    | AclEvaluated(decision: Decision)
    | ActionExecuted(decision: Decision)

  /** Events to publish in order, and the result if the audit queue accepts them all. */
  datatype Plan<T> = Plan(events: seq<AuditEvent>, result: Result<T, ProxyError>)

  function AskDecision(snapshot: Snapshot, wanted: RequestedFacts): Decision {
    Decide(snapshot.policy, Requested(wanted))
  }

  /** The flow as redirected by a detour: source and protocol are kept. */
  function Detoured(wanted: RequestedFacts, destination: Endpoint): RequestedFacts {
    wanted.(host := destination.host, port := destination.port)
  }

  /** What one round about a requested target publishes. */
  function RoundEvents(wanted: RequestedFacts, decision: Decision, permitted: bool): seq<AuditEvent> {
    [RequestedObserved(wanted), AclEvaluated(decision)] + if permitted then [] else [ActionExecuted(decision)]
  }

  /** How a round ends the search; `None` means a detour is followed. */
  function RoundResult(wanted: RequestedFacts, decision: Decision, permitted: bool, detoured: bool)
    : (r: Option<Result<RequestedFacts, ProxyError>>)
    ensures r.None? ==> decision.action.TcpDetour? && !detoured
  {
    if permitted then Some(Success(wanted))
    else if !decision.action.TcpDetour? then Some(Failure(PolicyDenied(decision)))
    else if detoured then Some(Failure(DetourLoop(decision)))
    else None
  }

  /** Asks policy about the requested target, following at most one detour. */
  function RequestedPlan(snapshot: Snapshot, wanted: RequestedFacts, detoured: bool): Plan<RequestedFacts>
    decreases !detoured
  {
    var decision := AskDecision(snapshot, wanted);
    var permitted := Permits(snapshot.enforcement, decision);
    var events := RoundEvents(wanted, decision, permitted);
    var result := RoundResult(wanted, decision, permitted, detoured);
    if result.Some? then Plan(events, result.value)
    else
      var rest := RequestedPlan(snapshot, Detoured(wanted, decision.action.destination), true);
      Plan(events + rest.events, rest.result)
  }

  /** The decisions made about one resolved address: the guard's, if any, then the policy's. */
  function AddressDecisions(snapshot: Snapshot, selected: RequestedFacts, address: SocketAddr): (ds: seq<Decision>)
    ensures |ds| > 0
  {
    var facts := ResolvedFacts(selected, address.ip);
    var guarded := GuardDecision(snapshot.guard, snapshot.policy.generation, facts);
    (if guarded.Some? then [guarded.value] else []) + [Decide(snapshot.policy, Resolved(facts))]
  }

  function Evaluations(decisions: seq<Decision>): (r: seq<AuditEvent>)
    ensures |r| == |decisions|
    ensures forall i | 0 <= i < |r| :: r[i] == AclEvaluated(decisions[i])
  {
    seq(|decisions|, i requires 0 <= i < |decisions| => AclEvaluated(decisions[i]))
  }

  /** What checking one address publishes; a late detour is also recorded as executed. */
  function AddressEvents(snapshot: Snapshot, selected: RequestedFacts, address: SocketAddr, late: bool): seq<AuditEvent> {
    var decisions := AddressDecisions(snapshot, selected, address);
    [ResolvedObserved(ResolvedFacts(selected, address.ip))] + Evaluations(decisions)
    + if late then [ActionExecuted(decisions[|decisions| - 1])] else []
  }

  function FirstDenied(enforcement: EnforcementMode, decisions: seq<Decision>): Option<Decision> {
    if decisions == [] then None
    else if !Permits(enforcement, decisions[0]) then Some(decisions[0])
    else FirstDenied(enforcement, decisions[1..])
  }

  function Remember(snapshot: Snapshot, denial: Option<Decision>, decisions: seq<Decision>): Option<Decision> {
    if denial.Some? then denial else FirstDenied(snapshot.enforcement, decisions)
  }

  /** A detour asked for once the target is resolved comes too late. */
  predicate LateDetour(snapshot: Snapshot, selected: RequestedFacts, address: SocketAddr) {
    var decision := Decide(snapshot.policy, Resolved(ResolvedFacts(selected, address.ip)));
    decision.action.TcpDetour? && !Permits(snapshot.enforcement, decision)
  }

  function DenialPlan(denial: Option<Decision>): Plan<()> {
    if denial.Some? then Plan([ActionExecuted(denial.value)], Failure(PolicyDenied(denial.value)))
    else Plan([], Success(()))
  }

  function ResolvedPlan(
    snapshot: Snapshot, selected: RequestedFacts, addresses: seq<SocketAddr>, denial: Option<Decision>): Plan<()>
  {
    if addresses == [] then DenialPlan(denial)
    else
      var decisions := AddressDecisions(snapshot, selected, addresses[0]);
      var late := LateDetour(snapshot, selected, addresses[0]);
      var events := AddressEvents(snapshot, selected, addresses[0], late);
      if late then Plan(events, Failure(DetourLoop(decisions[|decisions| - 1])))
      else
        var rest := ResolvedPlan(snapshot, selected, addresses[1..], Remember(snapshot, denial, decisions));
        Plan(events + rest.events, rest.result)
  }

  // ---- Properties on one snapshot ----

  /** Success of the requested stage means policy permits the selected target. */
  lemma {:induction false} SelectedIsPermitted(snapshot: Snapshot, wanted: RequestedFacts, detoured: bool)
    ensures var plan := RequestedPlan(snapshot, wanted, detoured);
            plan.result.Success? ==>
              && Permits(snapshot.enforcement, AskDecision(snapshot, plan.result.value))
              && plan.result.value.sourceIp == wanted.sourceIp && plan.result.value.protocol == wanted.protocol
    decreases !detoured
  {
  }

  /** How often policy was asked about a requested target. */
  function TimesAsked(events: seq<AuditEvent>): nat {
    if events == [] then 0
    else TimesAsked(events[..|events| - 1]) + if events[|events| - 1].RequestedObserved? then 1 else 0
  }

  lemma {:induction false} TimesAskedConcat(a: seq<AuditEvent>, b: seq<AuditEvent>)
    ensures TimesAsked(a + b) == TimesAsked(a) + TimesAsked(b)
  {
    if b == [] {
      assert a + b == a;
    } else {
      TimesAskedConcat(a, b[..|b| - 1]);
      ConcatFront(a, b);
    }
  }

  lemma RoundAsksOnce(wanted: RequestedFacts, decision: Decision, permitted: bool)
    ensures TimesAsked(RoundEvents(wanted, decision, permitted)) == 1
  {
    var asked, evaluated := [RequestedObserved(wanted)], [AclEvaluated(decision)];
    assert asked[..0] == [] && evaluated[..0] == [];
    TimesAskedConcat(asked, evaluated);
    var base := [RequestedObserved(wanted), AclEvaluated(decision)];
    assert base == asked + evaluated;
    if !permitted {
      TimesAskedConcat(base, [ActionExecuted(decision)]);
      assert [ActionExecuted(decision)][..0] == [];
    } else {
      assert RoundEvents(wanted, decision, permitted) == base;
    }
  }

  /** Policy is asked once about a requested target, and a second time exactly after an enforced detour. */
  lemma {:induction false} AtMostTwoRounds(snapshot: Snapshot, wanted: RequestedFacts)
    ensures var first := AskDecision(snapshot, wanted);
            TimesAsked(RequestedPlan(snapshot, wanted, false).events)
            == if snapshot.enforcement == Enforce && first.action.TcpDetour? then 2 else 1
  {
    var decision := AskDecision(snapshot, wanted);
    var permitted := Permits(snapshot.enforcement, decision);
    RoundAsksOnce(wanted, decision, permitted);
    if !permitted && decision.action.TcpDetour? {
      var again := Detoured(wanted, decision.action.destination);
      var rest := RequestedPlan(snapshot, again, true);
      var second := AskDecision(snapshot, again);
      RoundAsksOnce(again, second, Permits(snapshot.enforcement, second));
      TimesAskedConcat(RoundEvents(wanted, decision, permitted), rest.events);
    }
  }

  /** Once the requested stage has permitted a target, no resolved address can ask for a detour. */
  lemma NoLateDetour(snapshot: Snapshot, wanted: RequestedFacts, address: SocketAddr)
    requires Compiled(snapshot.policy) && RequestedPlan(snapshot, wanted, false).result.Success?
    ensures !LateDetour(snapshot, RequestedPlan(snapshot, wanted, false).result.value, address)
  {
    var selected := RequestedPlan(snapshot, wanted, false).result.value;
    var facts := Resolved(ResolvedFacts(selected, address.ip));
    SelectedIsPermitted(snapshot, wanted, false);
    if Decide(snapshot.policy, facts).action.TcpDetour? {
      DetourKnownWhenRequested(snapshot.policy, facts);
    }
  }

  /** All decisions about all addresses, in address order with the guard before the policy. */
  function AllDecisions(snapshot: Snapshot, selected: RequestedFacts, addresses: seq<SocketAddr>): seq<Decision> {
    if addresses == [] then []
    else AddressDecisions(snapshot, selected, addresses[0]) + AllDecisions(snapshot, selected, addresses[1..])
  }

  lemma {:induction false} FirstDeniedConcat(enforcement: EnforcementMode, a: seq<Decision>, b: seq<Decision>)
    ensures FirstDenied(enforcement, a + b)
            == if FirstDenied(enforcement, a).Some? then FirstDenied(enforcement, a) else FirstDenied(enforcement, b)
  {
    if a == [] {
      assert a + b == b;
    } else {
      FirstDeniedConcat(enforcement, a[1..], b);
      assert (a + b)[1..] == a[1..] + b;
    }
  }

  /** Without late detours the verdict on the addresses is the first denial of all decisions. */
  lemma {:induction false} ResolvedVerdict(
    snapshot: Snapshot, selected: RequestedFacts, addresses: seq<SocketAddr>, denial: Option<Decision>)
    requires forall a | a in addresses :: !LateDetour(snapshot, selected, a)
    ensures var first := Remember(snapshot, denial, AllDecisions(snapshot, selected, addresses));
            ResolvedPlan(snapshot, selected, addresses, denial).result
            == if first.Some? then Failure(PolicyDenied(first.value)) else Success(())
  {
    if addresses != [] {
      var here := AddressDecisions(snapshot, selected, addresses[0]);
      assert addresses[0] in addresses;
      ResolvedVerdict(snapshot, selected, addresses[1..], Remember(snapshot, denial, here));
      FirstDeniedConcat(snapshot.enforcement, here, AllDecisions(snapshot, selected, addresses[1..]));
    }
  }

  /** An address that passes both the guard and the policy of the snapshot. */
  predicate AddressAllowed(snapshot: Snapshot, selected: RequestedFacts, address: SocketAddr) {
    var facts := ResolvedFacts(selected, address.ip);
    && GuardDecision(snapshot.guard, snapshot.policy.generation, facts).None?
    && Decide(snapshot.policy, Resolved(facts)).action == AllowFlow
  }

  lemma {:induction false} NoDenialMeansAllAllowed(
    snapshot: Snapshot, selected: RequestedFacts, addresses: seq<SocketAddr>)
    requires snapshot.enforcement == Enforce
    ensures FirstDenied(Enforce, AllDecisions(snapshot, selected, addresses)).None?
            <==> forall a | a in addresses :: AddressAllowed(snapshot, selected, a)
  {
    if addresses != [] {
      var here := AddressDecisions(snapshot, selected, addresses[0]);
      NoDenialMeansAllAllowed(snapshot, selected, addresses[1..]);
      FirstDeniedConcat(Enforce, here, AllDecisions(snapshot, selected, addresses[1..]));
      OneAddress(snapshot, selected, addresses[0]);
      AllowedFirst(snapshot, selected, addresses);
    }
  }

  lemma AllowedFirst(snapshot: Snapshot, selected: RequestedFacts, addresses: seq<SocketAddr>)
    requires addresses != []
    ensures (forall a | a in addresses :: AddressAllowed(snapshot, selected, a))
            <==> AddressAllowed(snapshot, selected, addresses[0])
                 && forall a | a in addresses[1..] :: AddressAllowed(snapshot, selected, a)
  {
  }

  lemma OneAddress(snapshot: Snapshot, selected: RequestedFacts, address: SocketAddr)
    requires snapshot.enforcement == Enforce
    ensures FirstDenied(Enforce, AddressDecisions(snapshot, selected, address)).None?
            <==> AddressAllowed(snapshot, selected, address)
  {
  }

  /** Address authorization under enforcement: it succeeds exactly when every address is allowed,
      it never reports a detour loop, and a refusal names the earliest denial. */
  lemma AuthorizationVerdict(snapshot: Snapshot, wanted: RequestedFacts, addresses: seq<SocketAddr>)
    requires Compiled(snapshot.policy) && snapshot.enforcement == Enforce
    requires RequestedPlan(snapshot, wanted, false).result.Success?
    ensures var selected := RequestedPlan(snapshot, wanted, false).result.value;
            var result := ResolvedPlan(snapshot, selected, addresses, None).result;
            var first := FirstDenied(Enforce, AllDecisions(snapshot, selected, addresses));
            && (result.Success? <==> forall a | a in addresses :: AddressAllowed(snapshot, selected, a))
            && (result.Failure? ==> first.Some? && result.error == PolicyDenied(first.value))
  {
    var selected := RequestedPlan(snapshot, wanted, false).result.value;
    forall a | a in addresses ensures !LateDetour(snapshot, selected, a) {
      NoLateDetour(snapshot, wanted, a);
    }
    ResolvedVerdict(snapshot, selected, addresses, None);
    NoDenialMeansAllAllowed(snapshot, selected, addresses);
  }

  /** After a successful requested stage the resolved stage never reports a detour loop,
      whether policy is enforced or observed. */
  lemma NoDetourLoop(snapshot: Snapshot, wanted: RequestedFacts, addresses: seq<SocketAddr>)
    requires Compiled(snapshot.policy) && RequestedPlan(snapshot, wanted, false).result.Success?
    ensures var selected := RequestedPlan(snapshot, wanted, false).result.value;
            var result := ResolvedPlan(snapshot, selected, addresses, None).result;
            result.Failure? ==> result.error.PolicyDenied?
  {
    var selected := RequestedPlan(snapshot, wanted, false).result.value;
    forall a | a in addresses ensures !LateDetour(snapshot, selected, a) {
      NoLateDetour(snapshot, wanted, a);
    }
    ResolvedVerdict(snapshot, selected, addresses, None);
  }

  // ---- The whole authorization ----

  function Ips(addresses: seq<SocketAddr>): seq<IpAddr> {
    seq(|addresses|, i requires 0 <= i < |addresses| => addresses[i].ip)
  }

  /** Requested target, resolver's answer, then every resolved address, all on one snapshot. */
  function WholePlan(
    snapshot: Snapshot, wanted: RequestedFacts, lookup: RequestedFacts -> Option<seq<SocketAddr>>)
    : Plan<seq<SocketAddr>>
  {
    var asked := RequestedPlan(snapshot, wanted, false);
    if asked.result.Failure? then Plan(asked.events, Failure(asked.result.error))
    else
      var found := lookup(asked.result.value);
      if found.None? then Plan(asked.events, Failure(Unresolved))
      else if found.value == [] then Plan(asked.events, Failure(NoResolvedAddresses))
      else
        var checked := ResolvedPlan(snapshot, asked.result.value, found.value, None);
        Plan(asked.events + ([TargetResolved(asked.result.value.host, Ips(found.value))] + checked.events),
             if checked.result.Failure? then Failure(checked.result.error) else Success(found.value))
  }

  /** Under an enforced compiled policy, authorization succeeds exactly when the target is permitted,
      resolves, and every one of its addresses passes guard and policy of the one snapshot; a
      refused address yields the earliest denial; a detour loop comes only from the requested stage. */
  lemma WholeVerdict(
    snapshot: Snapshot, wanted: RequestedFacts, lookup: RequestedFacts -> Option<seq<SocketAddr>>)
    requires Compiled(snapshot.policy) && snapshot.enforcement == Enforce
    ensures var asked := RequestedPlan(snapshot, wanted, false).result;
            var r := WholePlan(snapshot, wanted, lookup).result;
            && (asked.Failure? ==> r == Failure(asked.error))
            && (asked.Success? ==>
                  var found := lookup(asked.value);
                  && (r.Success? <==> found.Some? && found.value != []
                                      && forall a | a in found.value :: AddressAllowed(snapshot, asked.value, a))
                  && (r.Success? ==> found == Some(r.value))
                  && (r.Failure? && found.Some? && found.value != [] ==>
                        var first := FirstDenied(Enforce, AllDecisions(snapshot, asked.value, found.value));
                        first.Some? && r.error == PolicyDenied(first.value)))
  {
    var asked := RequestedPlan(snapshot, wanted, false).result;
    if asked.Success? && lookup(asked.value).Some? {
      AuthorizationVerdict(snapshot, wanted, lookup(asked.value).value);
    }
  }

  // ---- The running code, with reloads at every await point ----

  /** What is left of `plan` once `done` is published. */
  ghost predicate Remaining<T>(plan: Plan<T>, done: seq<AuditEvent>, rest: Plan<T>) {
    plan.events == done + rest.events && plan.result == rest.result
  }

  /** Publishing the next events of a plan after `done`. */
  lemma Advance(
    done: seq<AuditEvent>, events: seq<AuditEvent>, queue: Queue, before: seq<AuditEvent>)
    requires !Refuses(queue, |done|)
    ensures var left := After(queue, |done|);
            && before + Delivered(queue, done) + Delivered(left, events) == before + Delivered(queue, done + events)
            && After(left, |events|) == After(queue, |done + events|)
            && (Refuses(left, |events|) <==> Refuses(queue, |done + events|))
  {
    DeliveredConcat(queue, done, events);
    Regrouped(before, Delivered(queue, done), Delivered(After(queue, |done|), events));
  }

  /** A plan whose publication was refused on the way delivers no more than it did by then. */
  lemma RefusedEarly<T>(plan: Plan<T>, done: seq<AuditEvent>, events: seq<AuditEvent>, rest: Plan<T>, queue: Queue)
    requires Remaining(plan, done, rest) && events <= rest.events
    requires Refuses(queue, |done + events|) || events == rest.events
    ensures Delivered(queue, plan.events) == Delivered(queue, done + events)
    ensures After(queue, |plan.events|) == After(queue, |done + events|)
    ensures Refuses(queue, |plan.events|) <==> Refuses(queue, |done + events|)
  {
    if events == rest.events {
      assert plan.events == done + events;
    } else {
      var tail := rest.events[|events|..];
      DeliveredConcat(queue, done + events, tail);
      assert plan.events == done + events + tail;
    }
  }

  /** One event more of a list being published. */
  lemma OneMore(queue: Queue, before: seq<AuditEvent>, events: seq<AuditEvent>, i: nat)
    requires i < |events| && !Refuses(queue, i)
    ensures var left := After(queue, i);
            && before + Delivered(queue, events[..i]) + Delivered(left, [events[i]])
               == before + Delivered(queue, events[..i + 1])
            && After(left, 1) == After(queue, i + 1) && (Refuses(left, 1) <==> Refuses(queue, i + 1))
            && (Refuses(left, 1) ==>
                  && Refuses(queue, |events|) && After(left, 1) == After(queue, |events|)
                  && Delivered(queue, events[..i + 1]) == Delivered(queue, events))
  {
    var next := [events[i]];
    assert events[..i + 1] == events[..i] + next;
    DeliveredConcat(queue, events[..i], next);
    DeliveredConcat(queue, events[..i + 1], events[i + 1..]);
    Regrouped(before, Delivered(queue, events[..i]), Delivered(After(queue, i), next));
    assert events == events[..i + 1] + events[i + 1..];
  }

  /** A plan carried out in two parts is carried out whole, also when publishing fails on the way. */
  lemma InTwoParts(before: seq<AuditEvent>, a: seq<AuditEvent>, b: seq<AuditEvent>, queue: Queue)
    ensures Refuses(queue, |a|) ==>
              && Refuses(queue, |a + b|) && After(queue, |a + b|) == After(queue, |a|)
              && before + Delivered(queue, a) == before + Delivered(queue, a + b)
    ensures !Refuses(queue, |a|) ==>
              && (Refuses(queue, |a + b|) <==> Refuses(After(queue, |a|), |b|))
              && After(queue, |a + b|) == After(After(queue, |a|), |b|)
              && before + Delivered(queue, a) + Delivered(After(queue, |a|), b) == before + Delivered(queue, a + b)
  {
    DeliveredConcat(queue, a, b);
    Regrouped(before, Delivered(queue, a), Delivered(After(queue, |a|), b));
  }

  lemma Finished<T>(plan: Plan<T>, done: seq<AuditEvent>, rest: Plan<T>)
    requires Remaining(plan, done, rest) && rest.events == []
    ensures plan.events == done
  {
  }

  lemma Proceed<T>(plan: Plan<T>, done: seq<AuditEvent>, events: seq<AuditEvent>, rest: Plan<T>, next: Plan<T>)
    requires Remaining(plan, done, rest) && rest == Plan(events + next.events, next.result)
    ensures Remaining(plan, done + events, next)
  {
  }

  /** The shared services: the swappable snapshot, the audit queue, and what the rest of the
      process will do to them. `reloads` lists, per coming await point, the snapshot stored then. */
  class DataPlaneServices {
    var snapshot: Snapshot
    var reloads: seq<Option<Snapshot>>
    var queue: Queue
    var published: seq<AuditEvent>

    /** Replaces all reloadable decision inputs at once. */
    method Reload(next: Snapshot)
      modifies this`snapshot
      ensures snapshot == next
    {
      snapshot := next;
    }

    /** Publishing is an await point: a reload may happen before it completes. */
    method Publish(event: AuditEvent) returns (ok: bool)
      modifies this
      ensures ok == !Refuses(old(queue), 1)
      ensures queue == After(old(queue), 1) && published == old(published) + Delivered(old(queue), [event])
    {
      if reloads != [] {
        if reloads[0].Some? {
          Reload(reloads[0].value);
        }
        reloads := reloads[1..];
      }
      ok := !Refuses(queue, 1);
      published := published + Delivered(queue, [event]);
      queue := After(queue, 1);
    }

    /** Publishes events in order until one is refused. */
    method PublishAll(events: seq<AuditEvent>) returns (ok: bool)
      modifies this
      ensures ok == !Refuses(old(queue), |events|)
      ensures queue == After(old(queue), |events|)
      ensures published == old(published) + Delivered(old(queue), events)
    {
      ok := true;
      for i := 0 to |events|
        invariant !Refuses(old(queue), i) && queue == After(old(queue), i)
        invariant published == old(published) + Delivered(old(queue), events[..i])
      {
        OneMore(old(queue), old(published), events, i);
        ok := Publish(events[i]);
        if !ok {
          return;
        }
      }
      assert events[..|events|] == events;
    }

    /** Publishes the next events of a plan being carried out. */
    method PublishStep<T>(
      ghost plan: Plan<T>, ghost done: seq<AuditEvent>, events: seq<AuditEvent>, ghost rest: Plan<T>,
      ghost queue0: Queue, ghost published0: seq<AuditEvent>)
      returns (ok: bool)
      requires Progress(queue0, published0, done) && Remaining(plan, done, rest) && events <= rest.events
      modifies this
      ensures ok ==> Progress(queue0, published0, done + events)
      ensures !ok ==> Followed(queue0, published0, plan, Failure(AuditFailed))
      ensures ok && events == rest.events ==> Followed(queue0, published0, plan, plan.result)
    {
      Advance(done, events, queue0, published0);
      ok := PublishAll(events);
      if !ok || events == rest.events {
        RefusedEarly(plan, done, events, rest, queue0);
      }
    }

    /** Follows at most one detour on the pinned snapshot. */
    method AuthorizeRequestedTarget(wanted: RequestedFacts, pinned: Snapshot)
      returns (r: Result<RequestedFacts, ProxyError>)
      modifies this
      ensures Followed(old(queue), old(published), RequestedPlan(pinned, wanted, false), r)
    {
      var selected := wanted;
      var detoured := false;
      ghost var done: seq<AuditEvent> := [];
      ghost var plan := RequestedPlan(pinned, wanted, false);
      while true
        invariant Progress(old(queue), old(published), done)
        invariant Remaining(plan, done, RequestedPlan(pinned, selected, detoured))
        decreases !detoured
      {
        var decision := AskDecision(pinned, selected);
        var permitted := Permits(pinned.enforcement, decision);
        var events := RoundEvents(selected, decision, permitted);
        var result := RoundResult(selected, decision, permitted, detoured);
        ghost var rest := RequestedPlan(pinned, selected, detoured);
        var ok := PublishStep(plan, done, events, rest, old(queue), old(published));
        if !ok {
          return Failure(AuditFailed);
        }
        if result.Some? {
          return result.value;
        }
        selected := Detoured(selected, decision.action.destination);
        detoured := true;
        Proceed(plan, done, events, rest, RequestedPlan(pinned, selected, detoured));
        done := done + events;
      }
    }

    /** Checks the next resolved address. The result is what ends the check, if something does. */
    method AuthorizeAddress(
      selected: RequestedFacts, address: SocketAddr, pinned: Snapshot, denial: Option<Decision>,
      ghost addresses: seq<SocketAddr>, ghost plan: Plan<()>, ghost done: seq<AuditEvent>,
      ghost queue0: Queue, ghost published0: seq<AuditEvent>)
      returns (after: Option<Decision>, ended: Option<Result<(), ProxyError>>, ghost now: seq<AuditEvent>)
      requires Progress(queue0, published0, done)
      requires Remaining(plan, done, ResolvedPlan(pinned, selected, [address] + addresses, denial))
      modifies this
      ensures ended.Some? ==> Followed(queue0, published0, plan, ended.value)
      ensures ended.None? ==>
                && Progress(queue0, published0, now)
                && Remaining(plan, now, ResolvedPlan(pinned, selected, addresses, after))
    {
      ConcatFirst([address], addresses);
      var decisions := AddressDecisions(pinned, selected, address);
      var late := LateDetour(pinned, selected, address);
      var events := AddressEvents(pinned, selected, address, late);
      ghost var rest := ResolvedPlan(pinned, selected, [address] + addresses, denial);
      after, now := Remember(pinned, denial, decisions), done + events;
      var ok := PublishStep(plan, done, events, rest, queue0, published0);
      if !ok {
        ended := Some(Failure(AuditFailed));
      } else if late {
        ended := Some(Failure(DetourLoop(decisions[|decisions| - 1])));
      } else {
        ended := None;
        Proceed(plan, done, events, rest, ResolvedPlan(pinned, selected, addresses, after));
      }
    }

    /** With every address checked, reports the denial remembered, if there is one. */
    method SettleDenial(
      denial: Option<Decision>, ghost plan: Plan<()>, ghost done: seq<AuditEvent>,
      ghost queue0: Queue, ghost published0: seq<AuditEvent>)
      returns (r: Result<(), ProxyError>)
      requires Progress(queue0, published0, done) && Remaining(plan, done, DenialPlan(denial))
      modifies this
      ensures Followed(queue0, published0, plan, r)
    {
      if denial.Some? {
        var ok := PublishStep(
          plan, done, [ActionExecuted(denial.value)], DenialPlan(denial), queue0, published0);
        return if ok then Failure(PolicyDenied(denial.value)) else Failure(AuditFailed);
      }
      Finished(plan, done, DenialPlan(denial));
      return Success(());
    }

    /** Checks every resolved address on the pinned snapshot, remembering the first denial. */
    method AuthorizeResolvedTargets(selected: RequestedFacts, addresses: seq<SocketAddr>, pinned: Snapshot)
      returns (r: Result<(), ProxyError>)
      modifies this
      ensures Followed(old(queue), old(published), ResolvedPlan(pinned, selected, addresses, None), r)
    {
      var denial: Option<Decision> := None;
      ghost var done: seq<AuditEvent> := [];
      ghost var plan := ResolvedPlan(pinned, selected, addresses, None);
      assert addresses[0..] == addresses;
      for i := 0 to |addresses|
        invariant Progress(old(queue), old(published), done)
        invariant Remaining(plan, done, ResolvedPlan(pinned, selected, addresses[i..], denial))
      {
        var ended: Option<Result<(), ProxyError>>;
        SplitFirst(addresses, i);
        denial, ended, done := AuthorizeAddress(
          selected, addresses[i], pinned, denial, addresses[i + 1..], plan, done, old(queue), old(published));
        if ended.Some? {
          return ended.value;
        }
      }
      r := SettleDenial(denial, plan, done, old(queue), old(published));
    }

    /** Publishes the resolver's answer and checks every address in it. */
    method CheckAddresses(selected: RequestedFacts, addresses: seq<SocketAddr>, pinned: Snapshot)
      returns (r: Result<(), ProxyError>)
      modifies this
      ensures var checked := ResolvedPlan(pinned, selected, addresses, None);
              Followed(
                old(queue), old(published),
                Plan([TargetResolved(selected.host, Ips(addresses))] + checked.events, checked.result), r)
    {
      var resolved := [TargetResolved(selected.host, Ips(addresses))];
      ghost var checked := ResolvedPlan(pinned, selected, addresses, None);
      InTwoParts(published, resolved, checked.events, queue);
      var ok := PublishAll(resolved);
      if !ok {
        return Failure(AuditFailed);
      }
      r := AuthorizeResolvedTargets(selected, addresses, pinned);
    }

    /** Authorizes a target end to end. `lookup` is the resolver's answer in address order, if it
        gave one. Whatever is reloaded meanwhile, the snapshot current on entry decides. */
    method AuthorizeAndResolve(wanted: RequestedFacts, lookup: RequestedFacts -> Option<seq<SocketAddr>>)
      returns (r: Result<seq<SocketAddr>, ProxyError>)
      modifies this
      ensures Followed(old(queue), old(published), WholePlan(old(snapshot), wanted, lookup), r)
    {
      var pinned := snapshot;
      ghost var before := RequestedPlan(pinned, wanted, false).events;
      var asked := AuthorizeRequestedTarget(wanted, pinned);
      ghost var whole := WholePlan(pinned, wanted, lookup).events;
      if asked.Failure? {
        assert |before| <= |whole| && before == whole[..|before|];
        return Failure(asked.error);
      }
      var found := lookup(asked.value);
      if found.None? {
        return Failure(Unresolved);
      }
      var addresses := found.value;
      if addresses == [] {
        return Failure(NoResolvedAddresses);
      }
      ghost var after :=
        [TargetResolved(asked.value.host, Ips(addresses))] + ResolvedPlan(pinned, asked.value, addresses, None).events;
      InTwoParts(old(published), before, after, old(queue));
      var checked := CheckAddresses(asked.value, addresses, pinned);
      return if checked.Failure? then Failure(checked.error) else Success(addresses);
    }

    /** Exactly `done` was published since the queue was `queue0`. */
    ghost predicate Progress(queue0: Queue, published0: seq<AuditEvent>, done: seq<AuditEvent>)
      reads this
    {
      && !Refuses(queue0, |done|) && queue == After(queue0, |done|)
      && published == published0 + Delivered(queue0, done)
    }

    /** The plan was carried out: its records were delivered as the queue allows, and its result
        stands unless publishing was refused. */
    ghost predicate Followed<T>(queue0: Queue, published0: seq<AuditEvent>, plan: Plan<T>, r: Result<T, ProxyError>)
      reads this
    {
      && published == published0 + Delivered(queue0, plan.events)
      && queue == After(queue0, |plan.events|)
      && r == if Refuses(queue0, |plan.events|) then Failure(AuditFailed) else plan.result
    }
  }

  // ---- Connecting ----

  datatype Attempt = Connected | Refused | TimedOut | Cancelled

  /** Tries addresses in order; `attempts` is how each attempt would end. */
  method ConnectAny(addresses: seq<SocketAddr>, attempts: seq<Attempt>) returns (r: Result<SocketAddr, ProxyError>)
    requires |attempts| == |addresses|
    ensures r.Success? ==>
              exists i :: 0 <= i < |addresses| && addresses[i] == r.value && attempts[i] == Connected
                          && forall j | 0 <= j < i :: attempts[j] in {Refused, TimedOut}
    ensures r == Failure(Shutdown) <==>
            exists i :: 0 <= i < |addresses| && attempts[i] == Cancelled
                        && forall j | 0 <= j < i :: attempts[j] in {Refused, TimedOut}
    ensures r.Failure? && r.error != Shutdown ==>
              && (forall j | 0 <= j < |attempts| :: attempts[j] in {Refused, TimedOut})
              && r.error == if addresses == [] then NoResolvedAddresses
                            else if attempts[|attempts| - 1] == Refused then ConnectFailed(addresses[|addresses| - 1])
                            else ConnectTimedOut(addresses[|addresses| - 1])
  {
    var lastError: Option<ProxyError> := None;
    for i := 0 to |addresses|
      invariant forall j | 0 <= j < i :: attempts[j] in {Refused, TimedOut}
      invariant lastError == if i == 0 then None
                             else if attempts[i - 1] == Refused then Some(ConnectFailed(addresses[i - 1]))
                             else Some(ConnectTimedOut(addresses[i - 1]))
    {
      match attempts[i] {
        case Cancelled => return Failure(Shutdown);
        case Connected => return Success(addresses[i]);
        case Refused => lastError := Some(ConnectFailed(addresses[i]));
        case TimedOut => lastError := Some(ConnectTimedOut(addresses[i]));
      }
    }
    return if lastError.Some? then Failure(lastError.value) else Failure(NoResolvedAddresses);
  }
}
